/** The sliding-window closest-approach search over one shard
    (find_rendezvous_moment in main.py). The pure definitions below state, in
    encounter order, every candidate pair the search meets; the method does the
    search step by step and is proved to return the running best of those
    candidates. */
module Scan {
  import opened Reports
  import opened Nearest
  import opened Results

  /** Sliding-window parameters in seconds (defaults 30 and 5). */
  datatype Config = Config(windowSize: int, stepSize: int)

  const DefaultConfig: Config := Config(30, 5)

  /** The window starting at `t`: the rows whose timestamp lies in the closed
      range [t, t + windowSize], in row order. */
  function Window(df: seq<Report>, t: int, windowSize: int): seq<Report>
  {
    Filter(df, (r: Report) => t <= r.timestamp <= t + windowSize)
  }

  /** A report is in the window exactly when its timestamp lies in
      [t, t + windowSize]. */
  lemma WindowMembers(df: seq<Report>, t: int, windowSize: int)
    ensures forall r :: r in Window(df, t, windowSize) <==> r in df && t <= r.timestamp <= t + windowSize
  {
    FilterMembers(df, (r: Report) => t <= r.timestamp <= t + windowSize);
  }

  /** With a window longer than the step, a report timestamped in the overlap
      [t + step, t + windowSize] belongs to two consecutive windows. */
  lemma WindowsOverlap(df: seq<Report>, t: int, cfg: Config, r: Report)
    requires 0 < cfg.stepSize <= cfg.windowSize
    requires r in df && t + cfg.stepSize <= r.timestamp <= t + cfg.windowSize
    ensures r in Window(df, t, cfg.windowSize)
    ensures r in Window(df, t + cfg.stepSize, cfg.windowSize)
  {
    WindowMembers(df, t, cfg.windowSize);
    WindowMembers(df, t + cfg.stepSize, cfg.windowSize);
  }

  /** The start times the search visits from `t`: t, t + step, ... while at
      most `end`. */
  function WindowStarts(t: int, end: int, step: int): seq<int>
    requires step > 0
    decreases end - t
  {
    if t > end then [] else [t] + WindowStarts(t + step, end, step)
  }

  /** Every start lies in [t, end], and there is one exactly when t <= end. */
  lemma {:induction false} WindowStartsBounds(t: int, end: int, step: int)
    requires step > 0
    ensures forall s :: s in WindowStarts(t, end, step) ==> t <= s <= end
    ensures WindowStarts(t, end, step) != [] <==> t <= end
    decreases end - t
  {
    if t <= end {
      WindowStartsBounds(t + step, end, step);
    }
  }

  /** The k-th window starts k whole steps after `t`, and the search stops at
      the first start past `end`: the last start is within one step of `end`. */
  lemma {:induction false} WindowStartsAreSteps(t: int, end: int, step: int)
    requires step > 0
    ensures forall k :: 0 <= k < |WindowStarts(t, end, step)| ==> WindowStarts(t, end, step)[k] == t + k * step
    ensures t <= end ==> end < WindowStarts(t, end, step)[|WindowStarts(t, end, step)| - 1] + step
    decreases end - t
  {
    if t <= end {
      var starts := WindowStarts(t, end, step);
      var rest := WindowStarts(t + step, end, step);
      WindowStartsAreSteps(t + step, end, step);
      forall k | 1 <= k < |starts| ensures starts[k] == t + k * step {
        assert starts[k] == rest[k - 1] == t + step + (k - 1) * step;
      }
      if rest != [] {
        assert starts[|starts| - 1] == rest[|rest| - 1];
      }
    }
  }

  /** `vessel_mmsi[index[0]] == vessel_mmsi[index[1]]`: point `i` and its
      nearest other point are reports of the same vessel. */
  predicate SameVesselNearest(w: seq<Report>, i: nat, dist: (Position, Position) -> real)
    requires 2 <= |w| && i < |w|
  {
    w[i].mmsi == w[NearestOther(w, i, dist)].mmsi
  }

  /** The record built for point `i` of the window starting at `t`: point `i`
      paired with its nearest other point, at their distance. Its timestamp is
      the window start, not the report's own time. */
  function PairAt(w: seq<Report>, t: int, i: nat, dist: (Position, Position) -> real): (r: Rendezvous)
    requires 2 <= |w| && i < |w|
    ensures r.Found? && r.timestamp == t
    ensures r.mmsi1 == w[i].mmsi && r.coords1 == w[i].position
    ensures exists j :: 0 <= j < |w| && j != i && r.mmsi2 == w[j].mmsi && r.coords2 == w[j].position &&
                        r.distance == dist(w[i].position, w[j].position)
    ensures forall k :: 0 <= k < |w| && k != i ==> r.distance <= Dist(w, i, k, dist)
  {
    var j := NearestOther(w, i, dist);
    Found(w[i].mmsi, w[j].mmsi, w[i].position, w[j].position, dist(w[i].position, w[j].position), t)
  }

  /** The candidates of the query points `i`, `i + 1`, ... of one window, in
      query order: every point whose nearest other point belongs to another vessel. */
  function PointCandidatesFrom(w: seq<Report>, t: int, i: nat, dist: (Position, Position) -> real): seq<Rendezvous>
    requires 2 <= |w| && i <= |w|
    decreases |w| - i
  {
    if i == |w| then []
    else
      var here := if SameVesselNearest(w, i, dist) then [] else [PairAt(w, t, i, dist)];
      here + PointCandidatesFrom(w, t, i + 1, dist)
  }

  /** Every candidate from query point `i` on is the pair of some such point
      whose nearest other point is another vessel. */
  lemma {:induction false} PointCandidatesSound(w: seq<Report>, t: int, i: nat, dist: (Position, Position) -> real)
    requires 2 <= |w| && i <= |w|
    ensures forall c :: c in PointCandidatesFrom(w, t, i, dist) ==>
              exists k :: i <= k < |w| && !SameVesselNearest(w, k, dist) && c == PairAt(w, t, k, dist)
    decreases |w| - i
  {
    if i < |w| {
      PointCandidatesSound(w, t, i + 1, dist);
    }
  }

  /** Every query point from `i` on whose nearest other point is another
      vessel contributes its pair. */
  lemma {:induction false} PointCandidatesComplete(w: seq<Report>, t: int, i: nat, k: nat, dist: (Position, Position) -> real)
    requires 2 <= |w| && i <= k < |w|
    requires !SameVesselNearest(w, k, dist)
    ensures PairAt(w, t, k, dist) in PointCandidatesFrom(w, t, i, dist)
    decreases k - i
  {
    if i < k {
      PointCandidatesComplete(w, t, i + 1, k, dist);
    }
  }

  /** Candidate `c` was drawn from two different rows of `w`: its first vessel
      and coordinates from one, its second from another, its distance theirs. */
  ghost predicate DrawnFrom(c: Rendezvous, w: seq<Report>, dist: (Position, Position) -> real)
    requires c.Found?
  {
    exists i, j :: 0 <= i < |w| && 0 <= j < |w| && i != j &&
      c.mmsi1 == w[i].mmsi && c.coords1 == w[i].position &&
      c.mmsi2 == w[j].mmsi && c.coords2 == w[j].position &&
      c.distance == dist(w[i].position, w[j].position)
  }

  /** The candidates of the window starting at `t`, in query order. A window
      of fewer than two rows has none; every candidate pairs two different
      vessels of the window and carries the window start as its timestamp. */
  function WindowCandidates(df: seq<Report>, t: int, windowSize: int, dist: (Position, Position) -> real): seq<Rendezvous>
  {
    var w := Window(df, t, windowSize);
    if |w| < 2 then [] else PointCandidatesFrom(w, t, 0, dist)
  }

  /** A window's candidates are found pairs of two different vessels stamped
      with the window start. */
  lemma WindowCandidatesShape(df: seq<Report>, t: int, windowSize: int, dist: (Position, Position) -> real)
    ensures |Window(df, t, windowSize)| < 2 ==> WindowCandidates(df, t, windowSize, dist) == []
    ensures forall c :: c in WindowCandidates(df, t, windowSize, dist) ==>
              c.Found? && c.timestamp == t && c.mmsi1 != c.mmsi2
  {
    var w := Window(df, t, windowSize);
    if 2 <= |w| {
      PointCandidatesSound(w, t, 0, dist);
      forall c | c in WindowCandidates(df, t, windowSize, dist)
        ensures c.Found? && c.timestamp == t && c.mmsi1 != c.mmsi2
      {
        var k :| 0 <= k < |w| && !SameVesselNearest(w, k, dist) && c == PairAt(w, t, k, dist);
      }
    }
  }

  /** Every candidate of a window was drawn from two different rows of it. */
  lemma WindowCandidatesDrawn(df: seq<Report>, t: int, windowSize: int, dist: (Position, Position) -> real)
    ensures forall c :: c in WindowCandidates(df, t, windowSize, dist) ==> c.Found? && DrawnFrom(c, Window(df, t, windowSize), dist)
  {
    var w := Window(df, t, windowSize);
    if 2 <= |w| {
      PointCandidatesSound(w, t, 0, dist);
    }
    WindowCandidatesShape(df, t, windowSize, dist);
    forall c | c in WindowCandidates(df, t, windowSize, dist) ensures DrawnFrom(c, w, dist) {
      var i :| 0 <= i < |w| && !SameVesselNearest(w, i, dist) && c == PairAt(w, t, i, dist);
      var j :| 0 <= j < |w| && j != i && c.mmsi2 == w[j].mmsi && c.coords2 == w[j].position &&
               c.distance == dist(w[i].position, w[j].position);
    }
  }

  /** Every distinct-vessel nearest pair of a window is one of its candidates. */
  lemma WindowCandidatesComplete(df: seq<Report>, t: int, windowSize: int, dist: (Position, Position) -> real, i: nat)
    requires 2 <= |Window(df, t, windowSize)| && i < |Window(df, t, windowSize)|
    requires !SameVesselNearest(Window(df, t, windowSize), i, dist)
    ensures PairAt(Window(df, t, windowSize), t, i, dist) in WindowCandidates(df, t, windowSize, dist)
  {
    PointCandidatesComplete(Window(df, t, windowSize), t, 0, i, dist);
  }

  /** The candidates of all windows starting at `t`, `t + step`, ... up to
      `end`, window by window in time order. */
  function CandidatesFrom(df: seq<Report>, t: int, end: int, cfg: Config, dist: (Position, Position) -> real): seq<Rendezvous>
    requires cfg.stepSize > 0
    decreases end - t
  {
    if t > end then []
    else WindowCandidates(df, t, cfg.windowSize, dist) + CandidatesFrom(df, t + cfg.stepSize, end, cfg, dist)
  }

  /** Every candidate of the scan from `t` to `end` is a found pair of two
      different vessels stamped with a time in [t, end]. */
  lemma {:induction false} CandidatesFromShape(df: seq<Report>, t: int, end: int, cfg: Config,
                                               dist: (Position, Position) -> real)
    requires cfg.stepSize > 0
    ensures forall c :: c in CandidatesFrom(df, t, end, cfg, dist) ==>
              c.Found? && c.mmsi1 != c.mmsi2 && t <= c.timestamp <= end
    decreases end - t
  {
    if t <= end {
      var here := WindowCandidates(df, t, cfg.windowSize, dist);
      var rest := CandidatesFrom(df, t + cfg.stepSize, end, cfg, dist);
      CandidatesFromShape(df, t + cfg.stepSize, end, cfg, dist);
      WindowCandidatesShape(df, t, cfg.windowSize, dist);
      CandidatesFromUnfold(df, t, end, cfg, dist);
      forall c: Rendezvous | c in here + rest ensures c.Found? && c.mmsi1 != c.mmsi2 && t <= c.timestamp <= end {
        if c in here {
          assert c.timestamp == t;
        } else {
          assert c in rest;
        }
      }
    } else {
      assert CandidatesFrom(df, t, end, cfg, dist) == [];
    }
  }

  /** One step of the scan: the window at `t`, then the windows after it. */
  lemma CandidatesFromUnfold(df: seq<Report>, t: int, end: int, cfg: Config, dist: (Position, Position) -> real)
    requires cfg.stepSize > 0 && t <= end
    ensures CandidatesFrom(df, t, end, cfg, dist)
            == WindowCandidates(df, t, cfg.windowSize, dist) + CandidatesFrom(df, t + cfg.stepSize, end, cfg, dist)
  {
  }

  /** The candidates of every visited window occur among the scan's candidates. */
  lemma {:induction false} CandidatesFromComplete(df: seq<Report>, t: int, end: int, cfg: Config,
                                                  dist: (Position, Position) -> real, s: int)
    requires cfg.stepSize > 0
    requires s in WindowStarts(t, end, cfg.stepSize)
    ensures forall c :: c in WindowCandidates(df, s, cfg.windowSize, dist) ==> c in CandidatesFrom(df, t, end, cfg, dist)
    decreases end - t
  {
    if s == t {
      FirstWindowInScan(df, t, end, cfg, dist);
    } else {
      WindowStartsTail(t, end, cfg.stepSize, s);
      CandidatesFromComplete(df, t + cfg.stepSize, end, cfg, dist, s);
      LaterWindowInScan(df, t, end, cfg, dist, s);
    }
  }

  /** A start after `t` is a start of the scan from `t + step`. */
  lemma WindowStartsTail(t: int, end: int, step: int, s: int)
    requires step > 0 && s in WindowStarts(t, end, step) && s != t
    ensures t <= end && s in WindowStarts(t + step, end, step)
  {
  }

  /** The first window's candidates are the scan's first candidates. */
  lemma FirstWindowInScan(df: seq<Report>, t: int, end: int, cfg: Config, dist: (Position, Position) -> real)
    requires cfg.stepSize > 0 && t <= end
    ensures forall c :: c in WindowCandidates(df, t, cfg.windowSize, dist) ==> c in CandidatesFrom(df, t, end, cfg, dist)
  {
    CandidatesFromUnfold(df, t, end, cfg, dist);
  }

  /** What the scan from `t + step` meets, the scan from `t` meets too. */
  lemma LaterWindowInScan(df: seq<Report>, t: int, end: int, cfg: Config, dist: (Position, Position) -> real, s: int)
    requires cfg.stepSize > 0 && t <= end
    requires forall c :: c in WindowCandidates(df, s, cfg.windowSize, dist) ==> c in CandidatesFrom(df, t + cfg.stepSize, end, cfg, dist)
    ensures forall c :: c in WindowCandidates(df, s, cfg.windowSize, dist) ==> c in CandidatesFrom(df, t, end, cfg, dist)
  {
    CandidatesFromUnfold(df, t, end, cfg, dist);
  }

  /** Found records listed with non-decreasing timestamps. */
  ghost predicate InTimeOrder(cs: seq<Rendezvous>)
  {
    (forall i :: 0 <= i < |cs| ==> cs[i].Found?) &&
    (forall a, b :: 0 <= a < b < |cs| ==> cs[a].timestamp <= cs[b].timestamp)
  }

  /** Two time-ordered lists, the first no later than `t` and the second no
      earlier, make a time-ordered list. */
  lemma InTimeOrderAppend(x: seq<Rendezvous>, y: seq<Rendezvous>, t: int)
    requires InTimeOrder(x) && InTimeOrder(y)
    requires forall c :: c in x ==> c.Found? && c.timestamp <= t
    requires forall c :: c in y ==> c.Found? && t <= c.timestamp
    ensures InTimeOrder(x + y)
  {
    assert forall i :: 0 <= i < |x| ==> x[i] in x;
    assert forall i :: 0 <= i < |y| ==> y[i] in y;
    var xy := x + y;
    assert forall i :: 0 <= i < |xy| ==> xy[i].Found?;
    forall a, b | 0 <= a < b < |xy| ensures xy[a].timestamp <= xy[b].timestamp {
      if b < |x| {
        assert xy[a] == x[a] && xy[b] == x[b];
      } else if a < |x| {
        assert xy[a] == x[a] && xy[b] == y[b - |x|];
      } else {
        assert xy[a] == y[a - |x|] && xy[b] == y[b - |x|];
      }
    }
  }

  /** The window at `t` comes before the later windows in time. */
  lemma InTimeOrderStep(df: seq<Report>, t: int, end: int, cfg: Config, dist: (Position, Position) -> real)
    requires cfg.stepSize > 0 && t <= end
    requires InTimeOrder(CandidatesFrom(df, t + cfg.stepSize, end, cfg, dist))
    ensures InTimeOrder(CandidatesFrom(df, t, end, cfg, dist))
  {
    CandidatesFromUnfold(df, t, end, cfg, dist);
    WindowCandidatesShape(df, t, cfg.windowSize, dist);
    CandidatesFromShape(df, t + cfg.stepSize, end, cfg, dist);
    InTimeOrderAppend(WindowCandidates(df, t, cfg.windowSize, dist),
                      CandidatesFrom(df, t + cfg.stepSize, end, cfg, dist), t);
  }

  /** The scan meets its candidates in time order: windows are visited with
      increasing start times. */
  lemma {:induction false} CandidatesFromInTimeOrder(df: seq<Report>, t: int, end: int, cfg: Config,
                                                     dist: (Position, Position) -> real)
    requires cfg.stepSize > 0
    ensures InTimeOrder(CandidatesFrom(df, t, end, cfg, dist))
    decreases end - t
  {
    if t <= end {
      CandidatesFromInTimeOrder(df, t + cfg.stepSize, end, cfg, dist);
      InTimeOrderStep(df, t, end, cfg, dist);
    } else {
      assert CandidatesFrom(df, t, end, cfg, dist) == [];
    }
  }

  /** The candidates of the whole shard: none for an empty frame (whose
      timestamps are all missing, so the loop never runs), otherwise those of
      the windows from the earliest to the latest timestamp. */
  function ShardCandidates(df: seq<Report>, cfg: Config, dist: (Position, Position) -> real): seq<Rendezvous>
    requires cfg.stepSize > 0
  {
    if df == [] then [] else CandidatesFrom(df, MinTimestamp(df), MaxTimestamp(df), cfg, dist)
  }

  /** The result of the search over one shard, as a specification: the
      running best of all its candidates, starting from NoResult. */
  function ShardRendezvous(reports: seq<Report>, cfg: Config, dist: (Position, Position) -> real,
                           inCircle: Position -> bool): Rendezvous
    requires cfg.stepSize > 0
  {
    RunningBest(NoResult, ShardCandidates(Clean(reports, inCircle), cfg, dist))
  }

  /** Handling query point `i` of a window: skip it when its nearest other
      point is the same vessel, otherwise offer its pair to the running best. */
  lemma PointCandidatesStep(w: seq<Report>, t: int, i: nat, dist: (Position, Position) -> real, acc: Rendezvous)
    requires 2 <= |w| && i < |w|
    ensures RunningBest(acc, PointCandidatesFrom(w, t, i, dist))
            == RunningBest(if SameVesselNearest(w, i, dist) then acc else Pick(acc, PairAt(w, t, i, dist)),
                           PointCandidatesFrom(w, t, i + 1, dist))
  {
    var here := if SameVesselNearest(w, i, dist) then [] else [PairAt(w, t, i, dist)];
    RunningBestAppend(acc, here, PointCandidatesFrom(w, t, i + 1, dist));
  }

  /** One iteration of the outer loop: once the window at `t` has been fed to
      the running best, what is left to feed is the windows after it. */
  lemma ScanStep(df: seq<Report>, t: int, next: int, end: int, cfg: Config, dist: (Position, Position) -> real,
                 before: Rendezvous, after: Rendezvous)
    requires cfg.stepSize > 0 && t <= end && next == t + cfg.stepSize
    requires RunningBest(before, WindowCandidates(df, t, cfg.windowSize, dist)) == after
    ensures RunningBest(before, CandidatesFrom(df, t, end, cfg, dist))
            == RunningBest(after, CandidatesFrom(df, next, end, cfg, dist))
  {
    var here := WindowCandidates(df, t, cfg.windowSize, dist);
    var rest := CandidatesFrom(df, next, end, cfg, dist);
    CandidatesFromUnfold(df, t, end, cfg, dist);
    assert CandidatesFrom(df, t, end, cfg, dist) == here + rest;
    RunningBestAppend(before, here, rest);
    assert RunningBest(before, here + rest) == RunningBest(after, rest);
  }

  /** Feeding one window's candidates is what the loop body does to the
      running best: nothing for a window of fewer than two rows. */
  lemma WindowFed(df: seq<Report>, t: int, windowSize: int, dist: (Position, Position) -> real,
                  before: Rendezvous, after: Rendezvous)
    requires |Window(df, t, windowSize)| < 2 ==> after == before
    requires |Window(df, t, windowSize)| >= 2 ==>
               after == RunningBest(before, PointCandidatesFrom(Window(df, t, windowSize), t, 0, dist))
    ensures RunningBest(before, WindowCandidates(df, t, windowSize, dist)) == after
  {
    if |Window(df, t, windowSize)| < 2 {
      assert WindowCandidates(df, t, windowSize, dist) == [];
    }
  }

  /** Past the last window start nothing is left to feed. */
  lemma ScanDone(df: seq<Report>, t: int, end: int, cfg: Config, dist: (Position, Position) -> real, acc: Rendezvous)
    requires cfg.stepSize > 0 && end < t
    ensures RunningBest(acc, CandidatesFrom(df, t, end, cfg, dist)) == acc
  {
    assert CandidatesFrom(df, t, end, cfg, dist) == [];
  }

  /** The body of the outer loop for a window of at least two rows: query the
      nearest other point of every row in order, skip same-vessel pairs, and
      replace the running best only by a strictly closer pair. */
  method UpdateWithWindow(window: seq<Report>, currentTime: int, dist: (Position, Position) -> real,
                          best: Rendezvous)
    returns (rendezvous: Rendezvous)
    requires 2 <= |window|
    requires best.Found? ==> best.mmsi1 != best.mmsi2
    ensures rendezvous == RunningBest(best, PointCandidatesFrom(window, currentTime, 0, dist))
    ensures rendezvous.Found? ==> rendezvous.mmsi1 != rendezvous.mmsi2
  {
    rendezvous := best;
    for i := 0 to |window|
      invariant RunningBest(rendezvous, PointCandidatesFrom(window, currentTime, i, dist))
                == RunningBest(best, PointCandidatesFrom(window, currentTime, 0, dist))
      invariant rendezvous.Found? ==> rendezvous.mmsi1 != rendezvous.mmsi2
    {
      PointCandidatesStep(window, currentTime, i, dist, rendezvous);
      var j := NearestOther(window, i, dist);
      if window[i].mmsi == window[j].mmsi {
        continue;
      }
      var distance := dist(window[i].position, window[j].position);
      if rendezvous.NoResult? || distance < rendezvous.distance {
        rendezvous := Found(window[i].mmsi, window[j].mmsi, window[i].position, window[j].position,
                            distance, currentTime);
      }
    }
    assert PointCandidatesFrom(window, currentTime, |window|, dist) == [];
  }

  /** find_rendezvous_moment: filter the rows, then slide the window from the
      earliest to the latest timestamp, keeping the closest distinct-vessel
      nearest pair met so far. */
  method FindRendezvousMoment(reports: seq<Report>, cfg: Config, dist: (Position, Position) -> real,
                              inCircle: Position -> bool)
    returns (rendezvous: Rendezvous)
    requires cfg.stepSize > 0
    ensures rendezvous == ShardRendezvous(reports, cfg, dist, inCircle)
    ensures rendezvous.Found? ==> rendezvous.mmsi1 != rendezvous.mmsi2
  {
    var df := Clean(reports, inCircle);
    rendezvous := NoResult;
    if df == [] {
      return;
    }
    var startTime := MinTimestamp(df);
    var endTime := MaxTimestamp(df);
    var currentTime := startTime;
    ghost var target := ShardRendezvous(reports, cfg, dist, inCircle);
    assert target == RunningBest(NoResult, CandidatesFrom(df, startTime, endTime, cfg, dist));
    assert RunningBest(rendezvous, CandidatesFrom(df, currentTime, endTime, cfg, dist)) == target;
    while currentTime <= endTime
      invariant RunningBest(rendezvous, CandidatesFrom(df, currentTime, endTime, cfg, dist)) == target
      invariant rendezvous.Found? ==> rendezvous.mmsi1 != rendezvous.mmsi2
      decreases endTime - currentTime
    {
      ghost var before := rendezvous;
      var window := Window(df, currentTime, cfg.windowSize);
      if |window| >= 2 {
        rendezvous := UpdateWithWindow(window, currentTime, dist, rendezvous);
      }
      var next := currentTime + cfg.stepSize;
      WindowFed(df, currentTime, cfg.windowSize, dist, before, rendezvous);
      ScanStep(df, currentTime, next, endTime, cfg, dist, before, rendezvous);
      currentTime := next;
    }
    ScanDone(df, currentTime, endTime, cfg, dist, rendezvous);
  }
}
