/** The closest-approach result and the "keep the closer one" update shared by
    the per-shard scan and the reduction over shards. */
module Results {
  import opened Reports

  /** The result record built in find_rendezvous_moment. `NoResult` is the
      default-constructed record, whose distance is +infinity: every found
      pair is closer than it. */
  datatype Rendezvous =
    | NoResult
    | Found(mmsi1: int, mmsi2: int, coords1: Position, coords2: Position,
            distance: real, timestamp: int)

  /** `a.distance < b.distance`, with NoResult standing for +infinity. */
  predicate Closer(a: Rendezvous, b: Rendezvous)
  {
    a.Found? && (b.NoResult? || a.distance < b.distance)
  }

  /** `a.distance <= b.distance`, with NoResult standing for +infinity. */
  predicate AtMost(a: Rendezvous, b: Rendezvous)
  {
    !Closer(b, a)
  }

  /** The two comparisons order found records by distance, with NoResult above
      every found record: `AtMost` is total and transitive, and `Closer` is its
      strict part. */
  lemma ComparisonsOrderByDistance(a: Rendezvous, b: Rendezvous, c: Rendezvous)
    ensures AtMost(a, NoResult) && (AtMost(NoResult, a) <==> a.NoResult?)
    ensures a.Found? && b.Found? ==> (Closer(a, b) <==> a.distance < b.distance)
    ensures a.Found? && b.Found? ==> (AtMost(a, b) <==> a.distance <= b.distance)
    ensures Closer(a, b) <==> AtMost(a, b) && !AtMost(b, a)
    ensures AtMost(a, b) || AtMost(b, a)
    ensures AtMost(a, b) && AtMost(b, c) ==> AtMost(a, c)
  {
  }

  /** The update of the running best: the candidate replaces it only when
      strictly closer. */
  function Pick(best: Rendezvous, c: Rendezvous): (r: Rendezvous)
    ensures r == best || r == c
    ensures AtMost(r, best) && AtMost(r, c)
    ensures r == c <==> (Closer(c, best) || c == best)
  {
    if Closer(c, best) then c else best
  }

  /** Feeding candidates `cs` in order into the running best, starting from `acc`. */
  function RunningBest(acc: Rendezvous, cs: seq<Rendezvous>): Rendezvous
    decreases |cs|
  {
    if cs == [] then acc else RunningBest(Pick(acc, cs[0]), cs[1..])
  }

  /** Index `k` of `xs` holds a least distance, and every earlier element is
      strictly farther: the first minimum in list order. */
  ghost predicate FirstMinimum(xs: seq<Rendezvous>, k: int)
  {
    0 <= k < |xs| &&
    (forall j :: 0 <= j < |xs| ==> AtMost(xs[k], xs[j])) &&
    (forall j :: 0 <= j < k ==> Closer(xs[k], xs[j]))
  }

  /** There is only one first minimum. */
  lemma FirstMinimumUnique(xs: seq<Rendezvous>, k1: int, k2: int)
    requires FirstMinimum(xs, k1) && FirstMinimum(xs, k2)
    ensures k1 == k2
  {
    assert AtMost(xs[k1], xs[k2]) && AtMost(xs[k2], xs[k1]);
  }

  /** Feeding the candidates of `a` and then those of `b` is feeding `a + b`. */
  lemma {:induction false} RunningBestAppend(acc: Rendezvous, a: seq<Rendezvous>, b: seq<Rendezvous>)
    ensures RunningBest(acc, a + b) == RunningBest(RunningBest(acc, a), b)
    decreases |a|
  {
    if a == [] {
      assert a + b == b;
    } else {
      assert a + b != [];
      assert (a + b)[0] == a[0];
      assert (a + b)[1..] == a[1..] + b;
      assert RunningBest(acc, a + b) == RunningBest(Pick(acc, a[0]), a[1..] + b);
      assert RunningBest(acc, a) == RunningBest(Pick(acc, a[0]), a[1..]);
      RunningBestAppend(Pick(acc, a[0]), a[1..], b);
    }
  }

  /** The running best is the first minimum of `[acc] + cs`: it is never
      farther than the start or any candidate, and it is strictly closer than
      everything fed in before it, so among equal distances the first one
      encountered is kept. */
  lemma {:induction false} RunningBestIsFirstMinimum(acc: Rendezvous, cs: seq<Rendezvous>)
    ensures exists k :: FirstMinimum([acc] + cs, k) && ([acc] + cs)[k] == RunningBest(acc, cs)
    decreases |cs|
  {
    var xs := [acc] + cs;
    if cs == [] {
      assert FirstMinimum(xs, 0) && xs[0] == RunningBest(acc, cs);
    } else {
      var p := Pick(acc, cs[0]);
      RunningBestIsFirstMinimum(p, cs[1..]);
      var ys := [p] + cs[1..];
      var k :| FirstMinimum(ys, k) && ys[k] == RunningBest(p, cs[1..]);
      assert forall j :: 1 < j < |xs| ==> xs[j] == ys[j - 1];
      assert xs[0] == acc && xs[1] == cs[0];
      if k == 0 {
        if p == acc {
          assert FirstMinimum(xs, 0);
          assert xs[0] == RunningBest(acc, cs);
        } else {
          assert FirstMinimum(xs, 1);
          assert xs[1] == RunningBest(acc, cs);
        }
      } else {
        assert Closer(ys[k], ys[0]);
        assert FirstMinimum(xs, k + 1);
        assert xs[k + 1] == RunningBest(acc, cs);
      }
    }
  }

  /** The running best never gets farther as candidates are fed in. */
  lemma RunningBestNeverIncreases(acc: Rendezvous, cs: seq<Rendezvous>)
    ensures AtMost(RunningBest(acc, cs), acc)
    ensures forall c :: c in cs ==> AtMost(RunningBest(acc, cs), c)
    ensures RunningBest(acc, cs) == acc || RunningBest(acc, cs) in cs
  {
    RunningBestIsFirstMinimum(acc, cs);
    var xs := [acc] + cs;
    var k :| FirstMinimum(xs, k) && xs[k] == RunningBest(acc, cs);
    assert xs[0] == acc;
    forall c | c in cs ensures AtMost(RunningBest(acc, cs), c) {
      var m :| 0 <= m < |cs| && cs[m] == c;
      assert xs[m + 1] == c;
    }
    if k > 0 {
      assert xs[k] == cs[k - 1];
    }
  }

  /** Two first minima of lists holding the same elements have the same
      distance (both NoResult, or equal distances). */
  lemma SameElementsSameMinimum(xs: seq<Rendezvous>, ys: seq<Rendezvous>, k1: int, k2: int)
    requires multiset(xs) == multiset(ys)
    requires FirstMinimum(xs, k1) && FirstMinimum(ys, k2)
    ensures AtMost(xs[k1], ys[k2]) && AtMost(ys[k2], xs[k1])
    ensures xs[k1].Found? <==> ys[k2].Found?
    ensures xs[k1].Found? ==> xs[k1].distance == ys[k2].distance
  {
    assert xs[k1] in multiset(ys);
    assert ys[k2] in multiset(xs);
  }
}
