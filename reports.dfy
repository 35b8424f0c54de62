/** Position reports of one shard and the row filter applied to them before the
    closest-approach search (main.py, find_rendezvous_moment, the boolean masks). */
module Reports {

  /** A (latitude, longitude) pair in degrees. */
  datatype Position = Position(lat: real, lon: real)

  /** One parsed AIS row: timestamp in whole seconds, vessel MMSI, position and
      speed over ground. */
  datatype Report = Report(timestamp: int, mmsi: int, position: Position, sog: real)

  /** The minimum speed over ground (knots) below which a report is dropped. */
  const MinSpeed: real := 1.0

  /** The coordinate and speed mask. Note that the longitude bound is [-90, 90],
      as the program writes it, not the geographic [-180, 180]. */
  predicate InBoxAndMoving(r: Report)
  {
    -90.0 <= r.position.lat <= 90.0 &&
    -90.0 <= r.position.lon <= 90.0 &&
    r.sog >= MinSpeed
  }

  /** A report survives the whole row filter: the mask above and the geofence. */
  predicate Keep(r: Report, inCircle: Position -> bool)
  {
    InBoxAndMoving(r) && inCircle(r.position)
  }

  /** Boolean-mask selection: the rows satisfying `p`, in their original order. */
  function Filter<T>(rs: seq<T>, p: T -> bool): (out: seq<T>)
    ensures |out| <= |rs|
    ensures forall r :: r in out ==> r in rs && p(r)
  {
    if rs == [] then []
    else if p(rs[0]) then [rs[0]] + Filter(rs[1..], p)
    else Filter(rs[1..], p)
  }

  /** A row is selected exactly when it is in the frame and satisfies the mask. */
  lemma {:induction false} FilterMembers<T>(rs: seq<T>, p: T -> bool)
    ensures forall r :: r in Filter(rs, p) <==> r in rs && p(r)
  {
    if rs != [] {
      FilterMembers(rs[1..], p);
      assert forall r :: r in rs <==> r == rs[0] || r in rs[1..];
    }
  }

  /** Selection keeps the rows' order: selecting from two frames one after
      the other is selecting from each and concatenating. */
  lemma {:induction false} FilterAppend<T>(a: seq<T>, b: seq<T>, p: T -> bool)
    ensures Filter(a + b, p) == Filter(a, p) + Filter(b, p)
  {
    if a == [] {
      assert a + b == b;
    } else {
      assert (a + b)[0] == a[0];
      assert (a + b)[1..] == a[1..] + b;
      FilterAppend(a[1..], b, p);
    }
  }

  /** A single row is kept iff it satisfies the mask. */
  lemma FilterOne<T>(x: T, p: T -> bool)
    ensures Filter([x], p) == if p(x) then [x] else []
  {
    assert [x][1..] == [];
  }

  /** A mask that every row satisfies selects the whole frame. */
  lemma {:induction false} FilterAll<T>(rs: seq<T>, p: T -> bool)
    requires forall r :: r in rs ==> p(r)
    ensures Filter(rs, p) == rs
  {
    if rs != [] {
      assert rs[0] in rs;
      FilterAll(rs[1..], p);
      assert [rs[0]] + rs[1..] == rs;
    }
  }

  /** A mask that no row satisfies selects the empty frame. */
  lemma {:induction false} FilterNone<T>(rs: seq<T>, p: T -> bool)
    requires forall r :: r in rs ==> !p(r)
    ensures Filter(rs, p) == []
  {
    if rs != [] {
      assert rs[0] in rs;
      FilterNone(rs[1..], p);
    }
  }

  /** Filtering twice is filtering once by the conjunction (stated with `pq`
      given as a parameter so that no two lambdas need to be compared). */
  lemma {:induction false} FilterTwice<T>(rs: seq<T>, p: T -> bool, q: T -> bool, pq: T -> bool)
    requires forall r :: pq(r) == (p(r) && q(r))
    ensures Filter(Filter(rs, p), q) == Filter(rs, pq)
  {
    if rs != [] {
      FilterTwice(rs[1..], p, q, pq);
    }
  }

  /** Filtering by the same mask a second time changes nothing. */
  lemma {:induction false} FilterIdempotent<T>(rs: seq<T>, p: T -> bool)
    ensures Filter(Filter(rs, p), p) == Filter(rs, p)
  {
    FilterTwice(rs, p, p, p);
  }

  /** The row filter of find_rendezvous_moment: first the coordinate/speed mask,
      then the geofence mask over what is left. */
  function Clean(rs: seq<Report>, inCircle: Position -> bool): (out: seq<Report>)
  {
    Filter(Filter(rs, InBoxAndMoving), (r: Report) => inCircle(r.position))
  }

  /** The two-stage filter keeps exactly the reports satisfying Keep, in order:
      a report survives iff its coordinates are in the box, its SOG is at least
      1.0 and it is inside the geofence. */
  lemma CleanKeepsExactly(rs: seq<Report>, inCircle: Position -> bool)
    ensures Clean(rs, inCircle) == Filter(rs, (r: Report) => Keep(r, inCircle))
    ensures forall r :: r in Clean(rs, inCircle) <==> r in rs && Keep(r, inCircle)
  {
    FilterTwice(rs, InBoxAndMoving, (r: Report) => inCircle(r.position), (r: Report) => Keep(r, inCircle));
    FilterMembers(rs, (r: Report) => Keep(r, inCircle));
  }

  /** The longitude bound is [-90, 90]: a moving report inside the geofence at
      longitude 100 is dropped, one at longitude -90 is kept. */
  lemma LongitudeBoundIsNinety(t: int, mmsi: int, inCircle: Position -> bool)
    requires inCircle(Position(55.0, 100.0)) && inCircle(Position(55.0, -90.0))
    ensures Clean([Report(t, mmsi, Position(55.0, 100.0), 5.0)], inCircle) == []
    ensures Clean([Report(t, mmsi, Position(55.0, -90.0), 5.0)], inCircle)
            == [Report(t, mmsi, Position(55.0, -90.0), 5.0)]
  {
    CleanKeepsExactly([Report(t, mmsi, Position(55.0, 100.0), 5.0)], inCircle);
    CleanKeepsExactly([Report(t, mmsi, Position(55.0, -90.0), 5.0)], inCircle);
    FilterOne(Report(t, mmsi, Position(55.0, 100.0), 5.0), (r: Report) => Keep(r, inCircle));
    FilterOne(Report(t, mmsi, Position(55.0, -90.0), 5.0), (r: Report) => Keep(r, inCircle));
  }

  /** `df["Timestamp"].min()` of a non-empty shard. */
  function MinTimestamp(rs: seq<Report>): (t: int)
    requires rs != []
    ensures exists i :: 0 <= i < |rs| && rs[i].timestamp == t
    ensures forall i :: 0 <= i < |rs| ==> t <= rs[i].timestamp
  {
    if |rs| == 1 then rs[0].timestamp
    else
      var rest := MinTimestamp(rs[1..]);
      if rs[0].timestamp <= rest then rs[0].timestamp else rest
  }

  /** `df["Timestamp"].max()` of a non-empty shard. */
  function MaxTimestamp(rs: seq<Report>): (t: int)
    requires rs != []
    ensures exists i :: 0 <= i < |rs| && rs[i].timestamp == t
    ensures forall i :: 0 <= i < |rs| ==> rs[i].timestamp <= t
  {
    if |rs| == 1 then rs[0].timestamp
    else
      var rest := MaxTimestamp(rs[1..]);
      if rs[0].timestamp >= rest then rs[0].timestamp else rest
  }
}
