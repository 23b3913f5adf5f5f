/** What one call of the people counter's frame step computes, as functions:
    the area filter, the box centre, first-match association against the
    previous frame's store, fresh-id allocation, the strict crossing test
    against the vertical line, and the replacement of the store. The class in
    module PeopleCounters runs the same step imperatively and is proved equal
    to `Advance`. */
module Tracking {

  import opened Options
  import opened Tracks
  import opened DataRecords

  /** A foreground contour reduced to what the tracker reads of it: its area
      and its bounding rectangle. */
  datatype Detection = Detection(area: real, x: int, y: int, w: int, h: int)

  /** Contours whose area is not strictly above this are noise. */
  const MinArea: real := 1000.0

  predicate Passes(d: Detection)
  {
    d.area > MinArea
  }

  /** Box centre with floor halving (`//` by a positive divisor floors, as
      Dafny's `/` does). */
  function CenterX(d: Detection): (c: int)
    ensures d.w >= 0 ==> d.x <= c <= d.x + d.w
  {
    d.x + d.w / 2
  }

  function CenterY(d: Detection): (c: int)
    ensures d.h >= 0 ==> d.y <= c <= d.y + d.h
  {
    d.y + d.h / 2
  }

  /** The line position as a fraction num/den of the frame width. */
  datatype Ratio = Ratio(num: int, den: nat)

  const DefaultLinePosition: Ratio := Ratio(1, 2)

  lemma DivBounds(a: nat, b: nat)
    requires b > 0
    ensures (a / b) * b <= a < (a / b + 1) * b
  {
  }

  lemma ScaleBelow(r: int, width: nat, num: nat, den: nat)
    requires 0 < den && r * den <= width * num
    ensures num <= den ==> r <= width
  {
    if num <= den {
      assert width * num <= width * den;
    }
  }

  lemma NegateBounds(a: nat, q: int, b: nat)
    requires b > 0 && q * b <= a < (q + 1) * b
    ensures (-q - 1) * b < -(a as int) <= (-q) * b
  {
    assert (-q - 1) * b == -((q + 1) * b);
    assert -q * b == -(q * b);
  }

  /** The line's pixel column: width * position, truncated toward zero
      (LineXNegative gives the bounds for a negative position). */
  function LineX(width: nat, p: Ratio): (r: int)
    requires p.den > 0
    ensures 0 <= p.num ==> 0 <= r && r * p.den <= width * p.num < (r + 1) * p.den
    ensures 0 <= p.num <= p.den ==> r <= width
  {
    if 0 <= p.num then
      var q := width * p.num / p.den;
      DivBounds(width * p.num, p.den);
      ScaleBelow(q, width, p.num, p.den);
      q
    else
      -(width * -p.num / p.den)
  }

  /** For a negative position the truncation rounds up, toward zero. */
  lemma LineXNegative(width: nat, p: Ratio)
    requires p.den > 0 && p.num < 0
    ensures var r := LineX(width, p);
      r <= 0 && (r - 1) * p.den < width * p.num <= r * p.den
  {
    var a: nat := width * -p.num;
    var q := a / p.den;
    var r := LineX(width, p);
    assert r == -q;
    DivBounds(a, p.den);
    NegateBounds(a, q, p.den);
    NegProduct(width, p.num, a);
    assert r - 1 == -q - 1;
  }

  lemma NegProduct(width: nat, num: int, a: nat)
    requires num < 0 && a == width * -num
    ensures width * num == -(a as int)
  {
  }

  datatype Crossing = Enter | Exit | NoCrossing

  /** Moving from the right of the line to its left is an entry, from the
      left to the right an exit; a position on the line is on neither side. */
  function Classify(prevX: int, currX: int, lineX: int): (c: Crossing)
    ensures c == Enter <==> prevX > lineX && currX < lineX
    ensures c == Exit <==> prevX < lineX && currX > lineX
  {
    if prevX > lineX && currX < lineX then Enter
    else if prevX < lineX && currX > lineX then Exit
    else NoCrossing
  }

  /** The state the frame step threads through its loop: the store being built,
      both counters, the next fresh id, and the events counted so far (true =
      entry), in the order they were counted. */
  datatype Tally = Tally(store: seq<Track>, enter: nat, exit: nat, nextId: nat, events: seq<bool>)

  /** The store invariant: distinct keys, all of them already handed out. */
  predicate WellFormed(store: seq<Track>, nextId: nat)
  {
    DistinctIds(store) && IdsBelow(store, nextId)
  }

  /** The id of the first previous track, in store order, close to (cx, cy). */
  function MatchIdOf(prev: seq<Track>, cx: int, cy: int): Option<nat>
  {
    match FirstMatch(prev, cx, cy)
    case None => None
    case Some(k) => Some(prev[k].id)
  }

  /** The previous track a detection matches, if it passes the filter. */
  function MatchOf(prev: seq<Track>, d: Detection): Option<nat>
  {
    if !Passes(d) then None else MatchIdOf(prev, CenterX(d), CenterY(d))
  }

  /** The crossing of the track stored under `id`: none unless the id was in
      the previous store, else the classification of its previous x. */
  function CrossingOf(prev: seq<Track>, id: nat, cx: int, lineX: int): Crossing
  {
    match Lookup(prev, id)
    case None => NoCrossing
    case Some(p) => Classify(p.x, cx, lineX)
  }

  /** Counts a classified crossing: the matching counter rises and the event
      is appended. */
  function Counted(t: Tally, c: Crossing): (r: Tally)
    ensures r.store == t.store && r.nextId == t.nextId
  {
    match c
    case Enter => t.(enter := t.enter + 1, events := t.events + [true])
    case Exit => t.(exit := t.exit + 1, events := t.events + [false])
    case NoCrossing => t
  }

  /** One detection of the frame. `prev` is the previous frame's store, which
      the loop never writes; crossings compare against it. */
  function Step(prev: seq<Track>, lineX: int, t: Tally, d: Detection): Tally
  {
    if !Passes(d) then t
    else
      var cx, cy := CenterX(d), CenterY(d);
      var m := MatchIdOf(prev, cx, cy);
      var id := if m.Some? then m.value else t.nextId;
      var stored := t.(store := Put(t.store, Track(id, cx, cy)),
                       nextId := if m.Some? then t.nextId else t.nextId + 1);
      Counted(stored, CrossingOf(prev, id, cx, lineX))
  }

  /** `Step` on a passing detection whose association, crossing and count
      have been computed separately. */
  lemma StepPassing(prev: seq<Track>, lineX: int, t: Tally, d: Detection, id: nat, nextId: nat, c: Crossing, u: Tally)
    requires Passes(d)
    requires var m := MatchIdOf(prev, CenterX(d), CenterY(d));
      && id == (if m.Some? then m.value else t.nextId)
      && nextId == (if m.Some? then t.nextId else t.nextId + 1)
    requires c == CrossingOf(prev, id, CenterX(d), lineX)
    requires Counted(Tally([], t.enter, t.exit, 0, t.events), c) == u
    ensures Step(prev, lineX, t, d) == Tally(Put(t.store, Track(id, CenterX(d), CenterY(d))), u.enter, u.exit, nextId, u.events)
  {
  }

  /** The loop over a frame's detections, in order. */
  function Frame(prev: seq<Track>, dets: seq<Detection>, lineX: int, start: Tally): Tally
    decreases |dets|
  {
    if dets == [] then start
    else Step(prev, lineX, Frame(prev, dets[..|dets| - 1], lineX, start), dets[|dets| - 1])
  }

  /** One whole frame: a new store is built from scratch, then replaces the
      old one; counters, the id counter and the event history carry over. */
  function Advance(s: Tally, dets: seq<Detection>, lineX: int): Tally
  {
    Frame(s.store, dets, lineX, Tally([], s.enter, s.exit, s.nextId, s.events))
  }

  /** A sequence of frames against a fixed line. */
  function Run(s: Tally, frames: seq<seq<Detection>>, lineX: int): Tally
    decreases |frames|
  {
    if frames == [] then s
    else Advance(Run(s, frames[..|frames| - 1], lineX), frames[|frames| - 1], lineX)
  }

  // ---------------------------------------------------------------------
  // Properties of one detection

  /** A detection whose area is at most the threshold changes nothing. */
  lemma SmallDetectionSkipped(prev: seq<Track>, lineX: int, t: Tally, d: Detection)
    requires d.area <= MinArea
    ensures Step(prev, lineX, t, d) == t
  {
  }

  /** An unmatched detection takes the next fresh id, which is not in the
      previous store, so it is appended and no counter or event changes. */
  lemma SpawnNeverCounts(prev: seq<Track>, lineX: int, t: Tally, d: Detection)
    requires Passes(d) && IdsBelow(prev, t.nextId)
    requires FirstMatch(prev, CenterX(d), CenterY(d)).None?
    ensures t.nextId !in Ids(prev)
    ensures Step(prev, lineX, t, d)
         == Tally(Put(t.store, Track(t.nextId, CenterX(d), CenterY(d))), t.enter, t.exit, t.nextId + 1, t.events)
  {
    FreshIdAbsent(prev, t.nextId);
  }

  /** A detection matching previous track k keeps its id, counts an entry
      exactly when that track was right of the line and the centre is left of
      it, an exit exactly in the mirror case, and never both. */
  lemma {:induction false} MatchedCrossing(prev: seq<Track>, lineX: int, t: Tally, d: Detection, k: nat)
    requires Passes(d) && DistinctIds(prev)
    requires FirstMatch(prev, CenterX(d), CenterY(d)) == Some(k)
    ensures var s := Step(prev, lineX, t, d);
      && s.store == Put(t.store, Track(prev[k].id, CenterX(d), CenterY(d)))
      && s.nextId == t.nextId
      && (s.enter == t.enter + 1 <==> prev[k].x > lineX && CenterX(d) < lineX)
      && (s.exit == t.exit + 1 <==> prev[k].x < lineX && CenterX(d) > lineX)
      && (s.enter == t.enter || s.exit == t.exit)
      && s.enter <= t.enter + 1 && s.exit <= t.exit + 1
      && ((prev[k].x == lineX || CenterX(d) == lineX) ==> s.enter == t.enter && s.exit == t.exit)
  {
    LookupDistinct(prev, k);
  }

  /** The step keeps the store invariant, and only ever raises the counters,
      extends the event history and advances the id counter by at most one;
      the counters move exactly with the events. */
  lemma {:induction false} StepInvariant(prev: seq<Track>, lineX: int, t: Tally, d: Detection)
    requires IdsBelow(prev, t.nextId) && WellFormed(t.store, t.nextId)
    ensures var s := Step(prev, lineX, t, d);
      && WellFormed(s.store, s.nextId)
      && t.nextId <= s.nextId <= t.nextId + 1
      && t.events <= s.events
      && s.enter - t.enter == EnterEvents(s.events) - EnterEvents(t.events) >= 0
      && s.exit - t.exit == (|s.events| - EnterEvents(s.events)) - (|t.events| - EnterEvents(t.events)) >= 0
  {
    if Passes(d) {
      var cx, cy := CenterX(d), CenterY(d);
      var m := MatchIdOf(prev, cx, cy);
      var id := if m.Some? then m.value else t.nextId;
      PutDistinct(t.store, Track(id, cx, cy));
      PutIds(t.store, Track(id, cx, cy));
      if m.Some? {
        var k := FirstMatch(prev, cx, cy).value;
        assert prev[k] in prev;
      }
      var u := t.(store := Put(t.store, Track(id, cx, cy)), nextId := if m.Some? then t.nextId else t.nextId + 1);
      CountedTally(u, CrossingOf(prev, id, cx, lineX));
    }
  }

  /** Counting an event moves the matching counter with the events it
      appends. */
  lemma CountedTally(t: Tally, c: Crossing)
    ensures var s := Counted(t, c);
      && t.events <= s.events
      && s.enter - t.enter == EnterEvents(s.events) - EnterEvents(t.events) >= 0
      && s.exit - t.exit == (|s.events| - EnterEvents(s.events)) - (|t.events| - EnterEvents(t.events)) >= 0
  {
    assert (t.events + [true])[..|t.events|] == t.events;
    assert (t.events + [false])[..|t.events|] == t.events;
  }


  // ---------------------------------------------------------------------
  // Properties of a frame

  lemma {:induction false} FrameInvariant(prev: seq<Track>, dets: seq<Detection>, lineX: int, start: Tally)
    requires IdsBelow(prev, start.nextId) && WellFormed(start.store, start.nextId)
    ensures var f := Frame(prev, dets, lineX, start);
      && WellFormed(f.store, f.nextId)
      && start.nextId <= f.nextId <= start.nextId + |dets|
      && start.events <= f.events
      && f.enter - start.enter == EnterEvents(f.events) - EnterEvents(start.events) >= 0
      && f.exit - start.exit == (|f.events| - EnterEvents(f.events)) - (|start.events| - EnterEvents(start.events)) >= 0
    decreases |dets|
  {
    if dets != [] {
      var front := dets[..|dets| - 1];
      FrameInvariant(prev, front, lineX, start);
      StepInvariant(prev, lineX, Frame(prev, front, lineX, start), dets[|dets| - 1]);
    }
  }

  /** The ids handed out while the id counter moved from lo to hi. */
  function Spawned(lo: nat, hi: nat): (r: set<nat>)
    ensures forall id :: id in r <==> lo <= id < hi
    decreases hi
  {
    if hi <= lo then {} else Spawned(lo, hi - 1) + {hi - 1}
  }

  /** The ids of previous tracks that some detection of `dets` matched. */
  function MatchedIds(prev: seq<Track>, dets: seq<Detection>): set<nat>
  {
    set d | d in dets && MatchOf(prev, d).Some? :: MatchOf(prev, d).value
  }

  lemma MatchedIdsSnoc(prev: seq<Track>, front: seq<Detection>, d: Detection)
    ensures MatchedIds(prev, front + [d])
         == MatchedIds(prev, front) + (if MatchOf(prev, d).Some? then {MatchOf(prev, d).value} else {})
  {
    assert forall e :: e in front + [d] <==> e in front || e == d;
  }

  /** One detection adds exactly its matched previous id, or the id it spawns. */
  lemma StepIds(prev: seq<Track>, lineX: int, t: Tally, d: Detection)
    ensures var s := Step(prev, lineX, t, d);
      && t.nextId <= s.nextId
      && Ids(s.store) == Ids(t.store)
                         + (if MatchOf(prev, d).Some? then {MatchOf(prev, d).value} else {})
                         + Spawned(t.nextId, s.nextId)
  {
    if Passes(d) {
      var m := MatchOf(prev, d);
      var id := if m.Some? then m.value else t.nextId;
      PutIds(t.store, Track(id, CenterX(d), CenterY(d)));
      assert Spawned(t.nextId, t.nextId) == {};
      if m.None? {
        assert Spawned(t.nextId, t.nextId + 1) == {t.nextId};
      }
    } else {
      assert Spawned(t.nextId, t.nextId) == {};
    }
  }

  /** After the frame the store holds exactly the previous tracks that some
      detection matched plus the ids spawned this frame: every unmatched
      previous track is dropped. */
  lemma {:induction false} FrameStoreIds(prev: seq<Track>, dets: seq<Detection>, lineX: int, start: Tally)
    ensures var f := Frame(prev, dets, lineX, start);
      && start.nextId <= f.nextId
      && Ids(f.store) == Ids(start.store) + MatchedIds(prev, dets) + Spawned(start.nextId, f.nextId)
    decreases |dets|
  {
    if dets == [] {
      assert MatchedIds(prev, dets) == {};
      assert Spawned(start.nextId, start.nextId) == {};
    } else {
      var front, d := dets[..|dets| - 1], dets[|dets| - 1];
      var g := Frame(prev, front, lineX, start);
      var f := Frame(prev, dets, lineX, start);
      assert f == Step(prev, lineX, g, d);
      var matched := if MatchOf(prev, d).Some? then {MatchOf(prev, d).value} else {};
      FrameStoreIds(prev, front, lineX, start);
      assert dets == front + [d];
      MatchedIdsSnoc(prev, front, d);
      StepIds(prev, lineX, g, d);
      SpawnedSplit(start.nextId, g.nextId, f.nextId);
      Regroup(Ids(start.store), MatchedIds(prev, front), Spawned(start.nextId, g.nextId),
              matched, Spawned(g.nextId, f.nextId));
    }
  }

  lemma SpawnedSplit(lo: nat, mid: nat, hi: nat)
    requires lo <= mid <= hi
    ensures Spawned(lo, hi) == Spawned(lo, mid) + Spawned(mid, hi)
  {
  }

  lemma Regroup(a: set<nat>, b: set<nat>, c: set<nat>, d: set<nat>, e: set<nat>)
    ensures a + b + c + d + e == a + (b + d) + (c + e)
  {
  }

  /** Only ids of previous tracks can be matched. */
  lemma MatchedIdsPrev(prev: seq<Track>, dets: seq<Detection>)
    ensures MatchedIds(prev, dets) <= Ids(prev)
  {
    forall id | id in MatchedIds(prev, dets) ensures id in Ids(prev) {
      var d :| d in dets && MatchOf(prev, d).Some? && MatchOf(prev, d).value == id;
      var k := FirstMatch(prev, CenterX(d), CenterY(d)).value;
      assert prev[k] in prev;
    }
  }

  // ---------------------------------------------------------------------
  // Properties of a run of frames

  /** Over any run of frames the store invariant holds, the counters never
      decrease, and they always equal the number of entry and exit events
      recorded since the start. */
  lemma {:induction false} RunInvariant(s: Tally, frames: seq<seq<Detection>>, lineX: int)
    requires WellFormed(s.store, s.nextId)
    ensures var r := Run(s, frames, lineX);
      && WellFormed(r.store, r.nextId)
      && s.nextId <= r.nextId
      && s.events <= r.events
      && r.enter - s.enter == EnterEvents(r.events) - EnterEvents(s.events) >= 0
      && r.exit - s.exit == (|r.events| - EnterEvents(r.events)) - (|s.events| - EnterEvents(s.events)) >= 0
    decreases |frames|
  {
    if frames != [] {
      var mid := Run(s, frames[..|frames| - 1], lineX);
      RunInvariant(s, frames[..|frames| - 1], lineX);
      FrameInvariant(mid.store, frames[|frames| - 1], lineX, Tally([], mid.enter, mid.exit, mid.nextId, mid.events));
    }
  }

  /** Over any run of frames every key of the final store was either a key at
      the start or handed out during the run. */
  lemma {:induction false} RunIds(s: Tally, frames: seq<seq<Detection>>, lineX: int)
    ensures var r := Run(s, frames, lineX);
      && s.nextId <= r.nextId
      && Ids(r.store) <= Ids(s.store) + Spawned(s.nextId, r.nextId)
    decreases |frames|
  {
    if frames != [] {
      var n := |frames| - 1;
      var mid := Run(s, frames[..n], lineX);
      var start := Tally([], mid.enter, mid.exit, mid.nextId, mid.events);
      var r := Run(s, frames, lineX);
      assert r == Frame(mid.store, frames[n], lineX, start);
      RunIds(s, frames[..n], lineX);
      FrameStoreIds(mid.store, frames[n], lineX, start);
      MatchedIdsPrev(mid.store, frames[n]);
      assert Ids(start.store) == {};
      SpawnedSplit(s.nextId, mid.nextId, r.nextId);
    }
  }

  /** Ids are never reused: an id already handed out and no longer stored
      never comes back, however many frames follow. */
  lemma DroppedIdNeverReturns(s: Tally, frames: seq<seq<Detection>>, lineX: int, id: nat)
    requires id < s.nextId && id !in Ids(s.store)
    ensures id !in Ids(Run(s, frames, lineX).store)
  {
    RunIds(s, frames, lineX);
  }

}
