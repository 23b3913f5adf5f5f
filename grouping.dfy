/** The display's merge pass: before drawing, the tracked positions are folded
    into groups, each object either merging into the first existing group
    strictly within the threshold on both axes (the group moves to the floor
    midpoint) or starting a group under its own id. */
module Grouping {

  import opened Options
  import opened Tracks

  /** `(a + b) // 2`: Dafny's `/` by a positive divisor floors, as Python's does. */
  function Midpoint(a: int, b: int): (m: int)
    ensures a <= b ==> a <= m <= b
    ensures b <= a ==> b <= m <= a
  {
    (a + b) / 2
  }

  /** One tracked object against the groups built so far. */
  function MergeOne(groups: seq<Track>, t: Track): seq<Track>
  {
    match FirstMatch(groups, t.x, t.y)
    case Some(k) => groups[k := Track(groups[k].id, Midpoint(groups[k].x, t.x), Midpoint(groups[k].y, t.y))]
    case None => Put(groups, t)
  }

  /** The groups after folding in every tracked object, in order. */
  function Grouped(tracked: seq<Track>): seq<Track>
    decreases |tracked|
  {
    if tracked == [] then []
    else MergeOne(Grouped(tracked[..|tracked| - 1]), tracked[|tracked| - 1])
  }

  /** The merge loop as the display runs it: every tracked object, in store
      order, goes through the inner scan. */
  method GroupObjects(tracked: seq<Track>) returns (groups: seq<Track>)
    ensures groups == Grouped(tracked)
  {
    groups := [];
    var i := 0;
    while i < |tracked|
      invariant 0 <= i <= |tracked|
      invariant groups == Grouped(tracked[..i])
    {
      assert tracked[..i + 1][..i] == tracked[..i];
      groups := MergeInto(groups, tracked[i]);
      i := i + 1;
    }
    assert tracked[..i] == tracked;
  }

  /** The inner scan for one object: the group dictionary is updated in place
      at the first close group, breaking out of the scan, and the object starts
      its own group when the scan finds none. */
  method MergeInto(groups: seq<Track>, t: Track) returns (groups': seq<Track>)
    ensures groups' == MergeOne(groups, t)
  {
    groups' := groups;
    var merged := false;
    var j := 0;
    while j < |groups'|
      invariant 0 <= j <= |groups'|
      invariant !merged && groups' == groups
      invariant forall q :: 0 <= q < j ==> !Near(groups[q], t.x, t.y)
    {
      var g := groups'[j];
      if Near(g, t.x, t.y) {
        MergeAt(groups, t, j);
        groups' := groups'[j := Track(g.id, Midpoint(g.x, t.x), Midpoint(g.y, t.y))];
        merged := true;
        break;
      }
      j := j + 1;
    }
    if !merged {
      groups' := Put(groups', t);
    }
  }

  /** The scan's break at index j means MergeOne merges into group j. */
  lemma MergeAt(groups: seq<Track>, t: Track, j: nat)
    requires j < |groups|
    requires Near(groups[j], t.x, t.y)
    requires forall q :: 0 <= q < j ==> !Near(groups[q], t.x, t.y)
    ensures MergeOne(groups, t)
         == groups[j := Track(groups[j].id, Midpoint(groups[j].x, t.x), Midpoint(groups[j].y, t.y))]
  {
    assert FirstMatch(groups, t.x, t.y) == Some(j);
  }

  /** An object merges into exactly one group, the first close one, which
      keeps its id and moves to the midpoint while every other group stays;
      an object close to no group is written under its own id. */
  lemma MergeOneShape(groups: seq<Track>, t: Track)
    ensures var r := MergeOne(groups, t);
      match FirstMatch(groups, t.x, t.y)
      case Some(k) =>
        && |r| == |groups|
        && Near(groups[k], t.x, t.y)
        && (forall q :: 0 <= q < k ==> !Near(groups[q], t.x, t.y))
        && r[k] == Track(groups[k].id, Midpoint(groups[k].x, t.x), Midpoint(groups[k].y, t.y))
        && (forall q :: 0 <= q < |r| && q != k ==> r[q] == groups[q])
      case None =>
        && (forall q :: 0 <= q < |groups| ==> !Near(groups[q], t.x, t.y))
        && r == Put(groups, t)
  {
  }

  /** Merging keeps the keys (a merge) or adds the object's own (a new
      group), and never adds more than one entry. */
  lemma MergeOneIds(groups: seq<Track>, t: Track)
    ensures Ids(groups) <= Ids(MergeOne(groups, t)) <= Ids(groups) + {t.id}
    ensures |MergeOne(groups, t)| <= |groups| + 1
  {
    PutIds(groups, t);
    match FirstMatch(groups, t.x, t.y)
    case Some(k) =>
      var r := MergeOne(groups, t);
      forall id | id in Ids(r) ensures id in Ids(groups) {
        var u :| u in r && u.id == id;
        var q :| 0 <= q < |r| && r[q] == u;
        assert groups[q].id == id && groups[q] in groups;
      }
      forall id | id in Ids(groups) ensures id in Ids(r) {
        var u :| u in groups && u.id == id;
        var q :| 0 <= q < |groups| && groups[q] == u;
        assert r[q].id == id && r[q] in r;
      }
    case None =>
  }

  /** There are never more groups than tracked objects, and every group is
      keyed by the id of some tracked object. */
  lemma {:induction false} GroupedBounds(tracked: seq<Track>)
    ensures |Grouped(tracked)| <= |tracked|
    ensures Ids(Grouped(tracked)) <= Ids(tracked)
    decreases |tracked|
  {
    if tracked != [] {
      var front, t := tracked[..|tracked| - 1], tracked[|tracked| - 1];
      GroupedBounds(front);
      MergeOneIds(Grouped(front), t);
      assert tracked == front + [t];
      assert Ids(tracked) == Ids(front) + {t.id};
    }
  }

  /** Distinct tracked ids give distinct group keys. */
  lemma {:induction false} GroupedDistinct(tracked: seq<Track>)
    requires DistinctIds(tracked)
    ensures DistinctIds(Grouped(tracked))
    decreases |tracked|
  {
    if tracked != [] {
      var front, t := tracked[..|tracked| - 1], tracked[|tracked| - 1];
      GroupedDistinct(front);
      var g := Grouped(front);
      if FirstMatch(g, t.x, t.y).None? {
        PutDistinct(g, t);
      }
    }
  }

  /** When the tracked ids are distinct (they are dictionary keys), an
      object close to no group starts a new group at the end of the order. */
  lemma NewGroupAppended(tracked: seq<Track>)
    requires DistinctIds(tracked) && tracked != []
    requires FirstMatch(Grouped(tracked[..|tracked| - 1]), tracked[|tracked| - 1].x, tracked[|tracked| - 1].y).None?
    ensures Grouped(tracked) == Grouped(tracked[..|tracked| - 1]) + [tracked[|tracked| - 1]]
  {
    var front, t := tracked[..|tracked| - 1], tracked[|tracked| - 1];
    GroupedBounds(front);
    assert t.id !in Ids(front) by {
      forall u | u in front ensures u.id != t.id {
        var q :| 0 <= q < |front| && front[q] == u;
        assert tracked[q] == u;
      }
    }
  }

  /** No objects give no groups; the first object always starts the first
      group, which keeps its id whatever is merged into it later. */
  lemma {:induction false} GroupedFirst(tracked: seq<Track>)
    ensures tracked == [] ==> Grouped(tracked) == []
    ensures tracked != [] ==> |Grouped(tracked)| > 0 && Grouped(tracked)[0].id == tracked[0].id
    decreases |tracked|
  {
    if |tracked| == 1 {
      assert tracked[..0] == [];
    } else if tracked != [] {
      var front, t := tracked[..|tracked| - 1], tracked[|tracked| - 1];
      GroupedFirst(front);
      var g := Grouped(front);
      if FirstMatch(g, t.x, t.y).None? {
        PutKeepsHead(g, t);
      }
    }
  }

  lemma PutKeepsHead(s: seq<Track>, t: Track)
    requires s != []
    ensures Put(s, t) != [] && Put(s, t)[0].id == s[0].id
  {
  }
}
