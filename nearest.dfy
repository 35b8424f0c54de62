/** The per-window nearest-neighbour query. The program builds a haversine
    BallTree over the window and asks it for the two nearest points of every
    point, taking the first as the point itself and the second as its nearest
    other point. Here that query is specified directly: the nearest other index
    under an arbitrary distance `dist`, the lowest index among equals. */
module Nearest {
  import opened Reports

  /** The distance from point `i` of the window to point `k`. */
  function Dist(w: seq<Report>, i: nat, k: nat, dist: (Position, Position) -> real): real
    requires i < |w| && k < |w|
  {
    dist(w[i].position, w[k].position)
  }

  /** The nearest index other than `i` among indices below `n`, earliest among equals. */
  function NearestBelow(w: seq<Report>, i: nat, n: nat, dist: (Position, Position) -> real): (j: nat)
    requires i < |w| && n <= |w|
    requires n >= 2 || (n == 1 && i != 0)
    ensures j < n && j != i
    ensures forall k :: 0 <= k < n && k != i ==> Dist(w, i, j, dist) <= Dist(w, i, k, dist)
    ensures forall k :: 0 <= k < j && k != i ==> Dist(w, i, j, dist) < Dist(w, i, k, dist)
    decreases n
  {
    if n == 1 then 0
    else if n - 1 == i then NearestBelow(w, i, n - 1, dist)
    else if n == 2 && i == 0 then 1
    else
      var j := NearestBelow(w, i, n - 1, dist);
      if dist(w[i].position, w[n - 1].position) < dist(w[i].position, w[j].position) then n - 1 else j
  }

  /** The nearest other point of point `i` (the query's `index[1]`): no other
      point is strictly nearer, and every point before it is strictly farther. */
  function NearestOther(w: seq<Report>, i: nat, dist: (Position, Position) -> real): (j: nat)
    requires 2 <= |w| && i < |w|
    ensures j < |w| && j != i
    ensures forall k :: 0 <= k < |w| && k != i ==> Dist(w, i, j, dist) <= Dist(w, i, k, dist)
    ensures forall k :: 0 <= k < j && k != i ==> Dist(w, i, j, dist) < Dist(w, i, k, dist)
  {
    NearestBelow(w, i, |w|, dist)
  }

  /** The two conditions of NearestOther fix its answer: any index that is
      nearest and earliest among equals is the one the query returns. */
  lemma NearestOtherUnique(w: seq<Report>, i: nat, dist: (Position, Position) -> real, m: nat)
    requires 2 <= |w| && i < |w|
    requires m < |w| && m != i
    requires forall k :: 0 <= k < |w| && k != i ==> Dist(w, i, m, dist) <= Dist(w, i, k, dist)
    requires forall k :: 0 <= k < m && k != i ==> Dist(w, i, m, dist) < Dist(w, i, k, dist)
    ensures NearestOther(w, i, dist) == m
  {
    var j := NearestOther(w, i, dist);
    var dj, dm := Dist(w, i, j, dist), Dist(w, i, m, dist);
    assert dj <= dm && dm <= dj;
    assert j < m ==> dm < dj;
    assert m < j ==> dj < dm;
  }
}
