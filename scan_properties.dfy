/** What find_rendezvous_moment promises about the record it returns for one
    shard, proved about the specification ShardRendezvous that the method is
    shown to compute. */
module ScanProperties {
  import opened Reports
  import opened Nearest
  import opened Results
  import opened Scan

  /** Every candidate of the scan from `t` comes from the window at one of
      the visited starts. */
  lemma {:induction false} CandidatesFromSound(df: seq<Report>, t: int, end: int, cfg: Config,
                                               dist: (Position, Position) -> real)
    requires cfg.stepSize > 0
    ensures forall c :: c in CandidatesFrom(df, t, end, cfg, dist) ==>
              exists s :: s in WindowStarts(t, end, cfg.stepSize) && c in WindowCandidates(df, s, cfg.windowSize, dist)
    decreases end - t
  {
    if t <= end {
      CandidatesFromSound(df, t + cfg.stepSize, end, cfg, dist);
      CandidatesFromUnfold(df, t, end, cfg, dist);
      var here := WindowCandidates(df, t, cfg.windowSize, dist);
      var rest := CandidatesFrom(df, t + cfg.stepSize, end, cfg, dist);
      var starts := WindowStarts(t, end, cfg.stepSize);
      assert starts == [t] + WindowStarts(t + cfg.stepSize, end, cfg.stepSize);
      forall c | c in here + rest
        ensures exists s :: s in starts && c in WindowCandidates(df, s, cfg.windowSize, dist)
      {
        if c in here {
          assert t in starts;
        } else {
          var s :| s in WindowStarts(t + cfg.stepSize, end, cfg.stepSize) && c in WindowCandidates(df, s, cfg.windowSize, dist);
          assert s in starts;
        }
      }
    } else {
      assert CandidatesFrom(df, t, end, cfg, dist) == [];
    }
  }

  /** The search finds nothing exactly when no window offers a candidate:
      the result stays the +infinity record iff the candidate list is empty. */
  lemma ShardNoResultIff(reports: seq<Report>, cfg: Config, dist: (Position, Position) -> real,
                         inCircle: Position -> bool)
    requires cfg.stepSize > 0
    ensures ShardRendezvous(reports, cfg, dist, inCircle).NoResult?
            <==> ShardCandidates(Clean(reports, inCircle), cfg, dist) == []
  {
    var df := Clean(reports, inCircle);
    var cs := ShardCandidates(df, cfg, dist);
    RunningBestNeverIncreases(NoResult, cs);
    if df != [] {
      CandidatesFromShape(df, MinTimestamp(df), MaxTimestamp(df), cfg, dist);
    }
    if cs != [] {
      assert cs[0] in cs;
    }
  }

  /** A shard with no report left after the row filter gives the +infinity
      record: the loop never runs. */
  lemma EmptyShardNoResult(reports: seq<Report>, cfg: Config, dist: (Position, Position) -> real,
                           inCircle: Position -> bool)
    requires cfg.stepSize > 0
    requires forall r :: r in reports ==> !Keep(r, inCircle)
    ensures ShardRendezvous(reports, cfg, dist, inCircle) == NoResult
  {
    CleanKeepsExactly(reports, inCircle);
    FilterNone(reports, (r: Report) => Keep(r, inCircle));
  }

  /** A found result pairs two different vessels, is stamped with a window
      start `start + k * step` within [start, end] (not with a report's own
      time), and was drawn from two different rows of that window, both of
      which passed the row filter. */
  lemma ShardResultShape(reports: seq<Report>, cfg: Config, dist: (Position, Position) -> real,
                         inCircle: Position -> bool)
    requires cfg.stepSize > 0
    ensures var r := ShardRendezvous(reports, cfg, dist, inCircle);
            var df := Clean(reports, inCircle);
            r.Found? ==>
              r.mmsi1 != r.mmsi2 &&
              df != [] &&
              (exists k: nat :: r.timestamp == MinTimestamp(df) + k * cfg.stepSize) &&
              MinTimestamp(df) <= r.timestamp <= MaxTimestamp(df) &&
              DrawnFrom(r, Window(df, r.timestamp, cfg.windowSize), dist) &&
              (forall x :: x in Window(df, r.timestamp, cfg.windowSize) ==> x in reports && Keep(x, inCircle))
  {
    var r := ShardRendezvous(reports, cfg, dist, inCircle);
    var df := Clean(reports, inCircle);
    var cs := ShardCandidates(df, cfg, dist);
    RunningBestNeverIncreases(NoResult, cs);
    if r.Found? {
      assert df != [] && r in cs;
      var start, end := MinTimestamp(df), MaxTimestamp(df);
      CandidatesFromShape(df, start, end, cfg, dist);
      CandidatesFromSound(df, start, end, cfg, dist);
      var s :| s in WindowStarts(start, end, cfg.stepSize) && r in WindowCandidates(df, s, cfg.windowSize, dist);
      WindowCandidatesShape(df, s, cfg.windowSize, dist);
      assert s == r.timestamp;
      WindowStartsAreSteps(start, end, cfg.stepSize);
      var starts := WindowStarts(start, end, cfg.stepSize);
      var k :| 0 <= k < |starts| && starts[k] == s;
      assert r.timestamp == start + k * cfg.stepSize;
      WindowCandidatesDrawn(df, s, cfg.windowSize, dist);
      WindowMembers(df, s, cfg.windowSize);
      CleanKeepsExactly(reports, inCircle);
    }
  }

  /** The result is at least as close as every distinct-vessel nearest pair
      of every visited window: for each window start and each query point
      whose nearest other point is another vessel, a result is found and its
      distance is at most that pair's. */
  lemma ShardResultIsClosest(reports: seq<Report>, cfg: Config, dist: (Position, Position) -> real,
                             inCircle: Position -> bool, s: int, i: nat)
    requires cfg.stepSize > 0
    requires Clean(reports, inCircle) != []
    requires s in WindowStarts(MinTimestamp(Clean(reports, inCircle)), MaxTimestamp(Clean(reports, inCircle)), cfg.stepSize)
    requires 2 <= |Window(Clean(reports, inCircle), s, cfg.windowSize)|
    requires i < |Window(Clean(reports, inCircle), s, cfg.windowSize)|
    requires !SameVesselNearest(Window(Clean(reports, inCircle), s, cfg.windowSize), i, dist)
    ensures ShardRendezvous(reports, cfg, dist, inCircle).Found?
    ensures ShardRendezvous(reports, cfg, dist, inCircle).distance
            <= PairAt(Window(Clean(reports, inCircle), s, cfg.windowSize), s, i, dist).distance
  {
    var df := Clean(reports, inCircle);
    var w := Window(df, s, cfg.windowSize);
    var c := PairAt(w, s, i, dist);
    var cs := ShardCandidates(df, cfg, dist);
    WindowCandidatesComplete(df, s, cfg.windowSize, dist, i);
    CandidatesFromComplete(df, MinTimestamp(df), MaxTimestamp(df), cfg, dist, s);
    assert c in cs;
    RunningBestNeverIncreases(NoResult, cs);
    assert AtMost(RunningBest(NoResult, cs), c);
  }

  /** The other half of minimality: a found result is itself the pair of a
      query point, in a visited window, whose nearest other point is another
      vessel. */
  lemma ShardResultIsNearestPair(reports: seq<Report>, cfg: Config, dist: (Position, Position) -> real,
                                 inCircle: Position -> bool)
    requires cfg.stepSize > 0
    requires ShardRendezvous(reports, cfg, dist, inCircle).Found?
    ensures var df := Clean(reports, inCircle);
            df != [] &&
            exists s, i: nat :: s in WindowStarts(MinTimestamp(df), MaxTimestamp(df), cfg.stepSize) &&
              2 <= |Window(df, s, cfg.windowSize)| && i < |Window(df, s, cfg.windowSize)| &&
              !SameVesselNearest(Window(df, s, cfg.windowSize), i, dist) &&
              ShardRendezvous(reports, cfg, dist, inCircle) == PairAt(Window(df, s, cfg.windowSize), s, i, dist)
  {
    var r := ShardRendezvous(reports, cfg, dist, inCircle);
    var df := Clean(reports, inCircle);
    var cs := ShardCandidates(df, cfg, dist);
    RunningBestNeverIncreases(NoResult, cs);
    assert df != [] && r in cs;
    var start, end := MinTimestamp(df), MaxTimestamp(df);
    CandidatesFromSound(df, start, end, cfg, dist);
    var s :| s in WindowStarts(start, end, cfg.stepSize) && r in WindowCandidates(df, s, cfg.windowSize, dist);
    var w := Window(df, s, cfg.windowSize);
    WindowCandidatesShape(df, s, cfg.windowSize, dist);
    assert 2 <= |w|;
    PointCandidatesSound(w, s, 0, dist);
    var i :| 0 <= i < |w| && !SameVesselNearest(w, i, dist) && r == PairAt(w, s, i, dist);
  }

  /** First wins among equal distances: every candidate met in an earlier
      window than the result's is strictly farther than the result. */
  lemma ShardResultEarliest(reports: seq<Report>, cfg: Config, dist: (Position, Position) -> real,
                            inCircle: Position -> bool, c: Rendezvous)
    requires cfg.stepSize > 0
    requires c in ShardCandidates(Clean(reports, inCircle), cfg, dist)
    requires ShardRendezvous(reports, cfg, dist, inCircle).Found?
    requires c.Found? && c.timestamp < ShardRendezvous(reports, cfg, dist, inCircle).timestamp
    ensures ShardRendezvous(reports, cfg, dist, inCircle).distance < c.distance
  {
    var df := Clean(reports, inCircle);
    CandidatesFromInTimeOrder(df, MinTimestamp(df), MaxTimestamp(df), cfg, dist);
    RunningBestEarliest(ShardCandidates(df, cfg, dist), c);
  }

  /** Fed a time-ordered list, the running best is strictly closer than every
      candidate with an earlier timestamp than its own. */
  lemma RunningBestEarliest(cs: seq<Rendezvous>, c: Rendezvous)
    requires InTimeOrder(cs) && c in cs
    requires RunningBest(NoResult, cs).Found? && c.timestamp < RunningBest(NoResult, cs).timestamp
    ensures RunningBest(NoResult, cs).distance < c.distance
  {
    var r := RunningBest(NoResult, cs);
    RunningBestIsFirstMinimum(NoResult, cs);
    var xs := [NoResult] + cs;
    var k :| FirstMinimum(xs, k) && xs[k] == r;
    var m :| 0 <= m < |cs| && cs[m] == c;
    assert xs[m + 1] == c;
    assert 0 < k && xs[k] == cs[k - 1];
    EarlierInTimeOrder(cs, m, k - 1);
    assert Closer(xs[k], xs[m + 1]);
  }

  /** In a time-ordered list, a strictly earlier timestamp sits at a lower index. */
  lemma EarlierInTimeOrder(cs: seq<Rendezvous>, a: nat, b: nat)
    requires InTimeOrder(cs) && a < |cs| && b < |cs|
    requires cs[a].timestamp < cs[b].timestamp
    ensures a < b
  {
  }

  /** Among equal distances the first candidate met is kept: the result is
      the first minimum of the candidates in scan order (earliest window
      first, then lowest query index), and nothing else has that property. */
  lemma ShardResultIsFirstMinimum(reports: seq<Report>, cfg: Config, dist: (Position, Position) -> real,
                                  inCircle: Position -> bool, k: int)
    requires cfg.stepSize > 0
    requires FirstMinimum([NoResult] + ShardCandidates(Clean(reports, inCircle), cfg, dist), k)
    ensures ([NoResult] + ShardCandidates(Clean(reports, inCircle), cfg, dist))[k]
            == ShardRendezvous(reports, cfg, dist, inCircle)
  {
    var cs := ShardCandidates(Clean(reports, inCircle), cfg, dist);
    RunningBestIsFirstMinimum(NoResult, cs);
    var k' :| FirstMinimum([NoResult] + cs, k') && ([NoResult] + cs)[k'] == RunningBest(NoResult, cs);
    FirstMinimumUnique([NoResult] + cs, k, k');
  }

  /** The distance on latitude alone, used by the example below. */
  function LatGap(p: Position, q: Position): real
  {
    if p.lat <= q.lat then q.lat - p.lat else p.lat - q.lat
  }

  /** Two reports of vessel 1 at latitude 0 and two of vessel 2 at latitude
      10, all at the same second and all passing the row filter. */
  const TwinShard: seq<Report> :=
    [Report(0, 1, Position(0.0, 0.0), 5.0), Report(0, 1, Position(0.0, 0.0), 5.0),
     Report(0, 2, Position(10.0, 0.0), 5.0), Report(0, 2, Position(10.0, 0.0), 5.0)]

  /** A geofence containing every position. */
  predicate Anywhere(p: Position)
  {
    true
  }

  /** In the window holding the whole shard, every point's nearest other
      point is its own vessel's twin, so the window offers no candidate. */
  lemma TwinWindowHasNoCandidate()
    ensures PointCandidatesFrom(TwinShard, 0, 0, LatGap) == []
  {
    var w := TwinShard;
    NearestOtherUnique(w, 0, LatGap, 1);
    NearestOtherUnique(w, 1, LatGap, 0);
    NearestOtherUnique(w, 2, LatGap, 3);
    NearestOtherUnique(w, 3, LatGap, 2);
    assert PointCandidatesFrom(w, 0, 4, LatGap) == [];
    assert PointCandidatesFrom(w, 0, 3, LatGap) == [];
    assert PointCandidatesFrom(w, 0, 2, LatGap) == [];
    assert PointCandidatesFrom(w, 0, 1, LatGap) == [];
  }

  /** Only each point's single nearest neighbour is examined, so two reports
      of one vessel at the same spot hide every other vessel: in TwinShard
      the two vessels are 10 apart and both pass the row filter, yet the
      search returns the +infinity record. */
  lemma TwinReportsHideOtherVessel()
    ensures Keep(TwinShard[0], Anywhere) && Keep(TwinShard[2], Anywhere)
    ensures TwinShard[0].mmsi != TwinShard[2].mmsi
    ensures LatGap(TwinShard[0].position, TwinShard[2].position) == 10.0
    ensures ShardRendezvous(TwinShard, DefaultConfig, LatGap, Anywhere) == NoResult
  {
    var df := TwinShard;
    var cfg := DefaultConfig;
    CleanKeepsExactly(df, Anywhere);
    FilterAll(df, (r: Report) => Keep(r, Anywhere));
    assert Clean(df, Anywhere) == df;
    assert MinTimestamp(df) == 0 && MaxTimestamp(df) == 0;
    CandidatesFromUnfold(df, 0, 0, cfg, LatGap);
    assert CandidatesFrom(df, cfg.stepSize, 0, cfg, LatGap) == [];
    FilterAll(df, (r: Report) => 0 <= r.timestamp <= 0 + cfg.windowSize);
    assert Window(df, 0, cfg.windowSize) == df;
    TwinWindowHasNoCandidate();
  }
}
