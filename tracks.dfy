/** The track store of the people counter: an insertion-ordered dictionary from
    track id to the track's last known centre, and the strict 50-pixel,
    first-match-wins proximity search that both the association pass and the
    display merge pass run over it. */
module Tracks {

  import opened Options

  /** One entry of an id-keyed position dictionary: id -> (x, y). */
  datatype Track = Track(id: nat, x: int, y: int)

  /** Both the tracker and the display merge pass use this fixed threshold. */
  const Threshold: int := 50

  function Abs(v: int): (r: nat)
    ensures r == v || r == -v
  {
    if v < 0 then -v else v
  }

  /** A stored position is close to (cx, cy) when it is strictly within the
      threshold on each axis independently. */
  predicate Near(t: Track, cx: int, cy: int)
  {
    Abs(t.x - cx) < Threshold && Abs(t.y - cy) < Threshold
  }

  /** The set of keys of the dictionary. */
  function Ids(s: seq<Track>): set<nat>
  {
    set t | t in s :: t.id
  }

  /** A dictionary never holds the same key twice. */
  predicate DistinctIds(s: seq<Track>)
  {
    forall i, j :: 0 <= i < j < |s| ==> s[i].id != s[j].id
  }

  /** Scan in iteration (insertion) order and stop at the first entry close to
      (cx, cy); the result is its position in the order. */
  function FirstMatch(s: seq<Track>, cx: int, cy: int): (r: Option<nat>)
    ensures r.Some? ==> r.value < |s| && Near(s[r.value], cx, cy)
    ensures r.Some? ==> forall j :: 0 <= j < r.value ==> !Near(s[j], cx, cy)
    ensures r.None? <==> forall j :: 0 <= j < |s| ==> !Near(s[j], cx, cy)
  {
    if s == [] then None
    else if Near(s[0], cx, cy) then Some(0)
    else match FirstMatch(s[1..], cx, cy)
      case None => None
      case Some(k) => Some(k + 1)
  }

  /** Dictionary read: the entry stored under `id`, if any. */
  function Lookup(s: seq<Track>, id: nat): (r: Option<Track>)
    ensures r.None? <==> id !in Ids(s)
    ensures r.Some? ==> r.value in s && r.value.id == id
  {
    if s == [] then None
    else if s[0].id == id then Some(s[0])
    else Lookup(s[1..], id)
  }

  /** Dictionary write `d[t.id] = (t.x, t.y)`: an existing key keeps its place
      in the order and gets the new value; a new key goes at the end. */
  function Put(s: seq<Track>, t: Track): (r: seq<Track>)
    ensures |r| == if t.id in Ids(s) then |s| else |s| + 1
    ensures t.id !in Ids(s) ==> r == s + [t]
  {
    if s == [] then [t]
    else if s[0].id == t.id then [t] + s[1..]
    else
      assert s == [s[0]] + s[1..];
      [s[0]] + Put(s[1..], t)
  }

  lemma IdsCons(u: Track, s: seq<Track>)
    ensures Ids([u] + s) == {u.id} + Ids(s)
  {
    assert forall v :: v in [u] + s <==> v == u || v in s;
  }

  /** Writing a key adds exactly that key. */
  lemma {:induction false} PutIds(s: seq<Track>, t: Track)
    ensures Ids(Put(s, t)) == Ids(s) + {t.id}
  {
    if s != [] {
      assert s == [s[0]] + s[1..];
      IdsCons(s[0], s[1..]);
      if s[0].id == t.id {
        IdsCons(t, s[1..]);
      } else {
        PutIds(s[1..], t);
        IdsCons(s[0], Put(s[1..], t));
      }
    }
  }

  /** After the write, the key reads back the written value and every other
      key reads back what it read before. */
  lemma {:induction false} PutLookup(s: seq<Track>, t: Track, id: nat)
    ensures Lookup(Put(s, t), id) == if id == t.id then Some(t) else Lookup(s, id)
  {
    if s != [] && s[0].id != t.id {
      PutLookup(s[1..], t, id);
    }
  }

  /** The write keeps the keys distinct. */
  lemma {:induction false} PutDistinct(s: seq<Track>, t: Track)
    requires DistinctIds(s)
    ensures DistinctIds(Put(s, t))
  {
    if s != [] && s[0].id != t.id {
      var rest := Put(s[1..], t);
      PutDistinct(s[1..], t);
      PutIds(s[1..], t);
      assert s == [s[0]] + s[1..];
      IdsCons(s[0], s[1..]);
      assert s[0].id !in Ids(s[1..]) by {
        forall u | u in s[1..] ensures u.id != s[0].id {
          var j :| 0 <= j < |s[1..]| && s[1..][j] == u;
          assert s[j + 1] == u;
        }
      }
      assert s[0].id !in Ids(rest);
      forall i, j | 0 <= i < j < |[s[0]] + rest|
        ensures ([s[0]] + rest)[i].id != ([s[0]] + rest)[j].id
      {
        if i == 0 {
          assert rest[j - 1] in rest;
        }
      }
    } else if s != [] {
      forall i, j | 0 <= i < j < |s| ensures Put(s, t)[i].id != Put(s, t)[j].id {
        assert s[i].id != s[j].id;
      }
    }
  }

  /** Writing an existing key replaces its entry where it stands: the order
      of the dictionary, which later scans follow, is unchanged. */
  lemma {:induction false} PutInPlace(s: seq<Track>, t: Track, k: nat)
    requires DistinctIds(s) && k < |s| && s[k].id == t.id
    ensures Put(s, t) == s[k := t]
  {
    if k > 0 {
      assert s[0].id != t.id;
      PutInPlace(s[1..], t, k - 1);
      assert s[k := t] == [s[0]] + s[1..][k - 1 := t];
    }
  }

  /** With distinct keys, looking up the key of any entry finds that entry. */
  lemma {:induction false} LookupDistinct(s: seq<Track>, k: nat)
    requires DistinctIds(s) && k < |s|
    ensures Lookup(s, s[k].id) == Some(s[k])
  {
    if k > 0 {
      assert s[k].id != s[0].id;
      LookupDistinct(s[1..], k - 1);
    }
  }

  /** Every key of `s` is below `bound`. */
  predicate IdsBelow(s: seq<Track>, bound: nat)
  {
    forall id :: id in Ids(s) ==> id < bound
  }

  /** When every key lies below `bound`, `bound` is not a key. */
  lemma FreshIdAbsent(s: seq<Track>, bound: nat)
    requires IdsBelow(s, bound)
    ensures bound !in Ids(s) && Lookup(s, bound) == None
  {
  }
}
