/** What expanding a record pushes, as a function of the record's view and
    the worker's bound: for every neighbour nbr, from n-1 down to 1, a record
    for nbr when nbr is feasible.  The search space of the expanded record is
    shared out among these children, except for tours that cannot beat the
    bound. */
module Expansion {
  import opened Tours
  import opened WorkStacks

  /** The cities of a record's tour once its city is appended. */
  ghost function Extended(v: EntryView): seq<int> {
    v.cities + [v.city]
  }

  /** Feasible, on a view: nbr is not on the extended tour and the extended
      tour's cost plus the edge to nbr stays below the bound. */
  ghost predicate Promising(n: int, mat: seq<int>, v: EntryView, lBest: int, nbr: int)
    requires |mat| == n * n && 0 <= v.city < n && 0 <= nbr < n
  {
    nbr !in Extended(v) && v.tourCost + v.cost + Cost(n, mat, v.city, nbr) < lBest
  }

  /** The record pushed for nbr. */
  ghost function Child(n: int, mat: seq<int>, v: EntryView, nbr: int): EntryView
    requires |mat| == n * n && 0 <= v.city < n && 0 <= nbr < n
  {
    EntryView(Extended(v), v.tourCost + v.cost, nbr, Cost(n, mat, v.city, nbr))
  }

  /** The records pushed for the neighbours n-1 down to k, topmost first: the
      loop pushes n-1 first, so k ends up on top. */
  ghost function Children(n: int, mat: seq<int>, v: EntryView, lBest: int, k: int): seq<EntryView>
    requires |mat| == n * n && 0 <= v.city < n && 1 <= k <= n
    decreases n - k
  {
    if k == n then []
    else (if Promising(n, mat, v, lBest, k) then [Child(n, mat, v, k)] else []) + Children(n, mat, v, lBest, k + 1)
  }

  lemma {:induction false} ChildrenUnfold(n: int, mat: seq<int>, v: EntryView, lBest: int, k: int)
    requires |mat| == n * n && 0 <= v.city < n && 1 <= k < n
    ensures Children(n, mat, v, lBest, k) ==
              (if Promising(n, mat, v, lBest, k) then [Child(n, mat, v, k)] else []) + Children(n, mat, v, lBest, k + 1)
  {
  }

  /** The extended tour of a good record is a partial tour whose cost is its
      recorded cost plus the edge. */
  lemma {:induction false} ExtendedFacts(n: int, mat: seq<int>, v: EntryView)
    requires IsMatrix(n, mat) && GoodView(n, mat, v)
    ensures IsPartialTour(n, Extended(v)) && |Extended(v)| == |v.cities| + 1
    ensures PathCost(n, mat, Extended(v)) == v.tourCost + v.cost
    ensures Extended(v)[|v.cities|] == v.city
  {
    PathCostSnoc(n, mat, v.cities, v.city);
    PartialTourSnoc(n, v.cities, v.city);
  }

  /** w is a possible child of v: a good record one city longer. */
  ghost predicate ChildShape(n: int, mat: seq<int>, v: EntryView, w: EntryView)
    requires |mat| == n * n
  {
    GoodView(n, mat, w) && |w.cities| == |v.cities| + 1
  }

  /** The child of a good record for a feasible neighbour is good. */
  lemma {:induction false} ChildGood(n: int, mat: seq<int>, v: EntryView, lBest: int, k: int)
    requires IsMatrix(n, mat) && GoodView(n, mat, v) && |v.cities| + 1 < n && 1 <= k < n
    requires Promising(n, mat, v, lBest, k)
    ensures ChildShape(n, mat, v, Child(n, mat, v, k))
  {
    ExtendedFacts(n, mat, v);
  }

  /** Expanding pushes at most one record per neighbour, each with one more
      city on its tour than the expanded record. */
  lemma {:induction false} ChildrenSize(n: int, mat: seq<int>, v: EntryView, lBest: int, k: int)
    requires |mat| == n * n && 0 <= v.city < n && 1 <= k <= n
    ensures |Children(n, mat, v, lBest, k)| <= n - k
    ensures forall j :: 0 <= j < |Children(n, mat, v, lBest, k)| ==>
              |Children(n, mat, v, lBest, k)[j].cities| == |v.cities| + 1
    decreases n - k
  {
    if k < n {
      ChildrenSize(n, mat, v, lBest, k + 1);
      var cs := Children(n, mat, v, lBest, k);
      var tail := Children(n, mat, v, lBest, k + 1);
      if Promising(n, mat, v, lBest, k) {
        assert cs == [Child(n, mat, v, k)] + tail;
        assert forall j :: 0 < j < |cs| ==> cs[j] == tail[j - 1];
      } else {
        assert cs == tail;
      }
    }
  }

  /** Every child of a good record that is not yet a complete tour is good
      and one city longer. */
  lemma {:induction false} ChildrenGood(n: int, mat: seq<int>, v: EntryView, lBest: int, k: int)
    requires IsMatrix(n, mat) && GoodView(n, mat, v) && |v.cities| + 1 < n && 1 <= k <= n
    ensures forall j :: 0 <= j < |Children(n, mat, v, lBest, k)| ==>
              ChildShape(n, mat, v, Children(n, mat, v, lBest, k)[j])
    decreases n - k
  {
    if k < n {
      ChildrenGood(n, mat, v, lBest, k + 1);
      var cs := Children(n, mat, v, lBest, k);
      var tail := Children(n, mat, v, lBest, k + 1);
      if Promising(n, mat, v, lBest, k) {
        var c := Child(n, mat, v, k);
        ChildGood(n, mat, v, lBest, k);
        assert cs == [c] + tail;
        assert forall j :: 0 < j < |cs| ==> cs[j] == tail[j - 1];
      } else {
        assert cs == tail;
      }
    }
  }

  /** A tour h that continues path by nbr never revisits nbr. */
  lemma {:induction false} NextOnTour(n: int, path: seq<int>, nbr: int, h: seq<int>)
    requires IsHamiltonian(n, h) && |path| < n && h[..|path|] == path && h[|path|] == nbr
    ensures h[..|path| + 1] == path + [nbr] && nbr !in path
  {
    var k := |path|;
    assert h[..k + 1] == path + [nbr];
    forall i | 0 <= i < k ensures path[i] != nbr {
      assert path[i] == h[i];
    }
  }

  /** A tour h that continues path by nbr never revisits nbr, and costs at
      least the path's cost plus the edge to nbr. */
  lemma {:induction false} ThroughNeighbour(n: int, mat: seq<int>, path: seq<int>, tcost: int, city: int, nbr: int, h: seq<int>)
    requires IsMatrix(n, mat) && NonNegative(mat)
    requires IsPartialTour(n, path) && |path| < n && path[|path| - 1] == city && tcost == PathCost(n, mat, path)
    requires IsHamiltonian(n, h) && h[..|path|] == path && h[|path|] == nbr
    ensures h[..|path| + 1] == path + [nbr] && nbr !in path
    ensures tcost + Cost(n, mat, city, nbr) <= CycleCost(n, mat, h)
  {
    NextOnTour(n, path, nbr, h);
    PathCostSnoc(n, mat, path, nbr);
    PrefixBelowCycle(n, mat, h, |path| + 1);
  }

  /** A tour h that continues a good record goes on to some city nbr; the
      record's child for nbr is pushed and leads towards h, unless h costs at
      least the bound. */
  lemma {:induction false} NextChildCovers(n: int, mat: seq<int>, v: EntryView, lBest: int, h: seq<int>)
    requires IsMatrix(n, mat) && NonNegative(mat) && GoodView(n, mat, v) && |v.cities| + 1 < n
    requires IsHamiltonian(n, h) && Covers(v, h)
    ensures 1 <= h[|v.cities| + 1] < n
    ensures || (Promising(n, mat, v, lBest, h[|v.cities| + 1]) && Covers(Child(n, mat, v, h[|v.cities| + 1]), h))
            || lBest <= CycleCost(n, mat, h)
  {
    var p := Extended(v);
    ExtendedFacts(n, mat, v);
    NextIsNotHome(n, v, h);
    assert h[..|p|] == p;
    ThroughNeighbour(n, mat, p, v.tourCost + v.cost, v.city, h[|p|], h);
  }

  /** Pruning is sound: a tour h that continues the expanded record with a
      city k or above is led to by one of the children for k .. n-1, or costs
      at least the bound. */
  lemma {:induction false} ChildrenCover(n: int, mat: seq<int>, v: EntryView, lBest: int, k: int, h: seq<int>)
    requires |mat| == n * n && 0 <= v.city < n && |v.cities| + 1 < n && 1 <= k <= n
    requires IsHamiltonian(n, h) && k <= h[|v.cities| + 1] < n
    requires || (Promising(n, mat, v, lBest, h[|v.cities| + 1]) && Covers(Child(n, mat, v, h[|v.cities| + 1]), h))
             || lBest <= CycleCost(n, mat, h)
    ensures CoveredBy(Children(n, mat, v, lBest, k), h) || lBest <= CycleCost(n, mat, h)
    decreases n - k
  {
    assert k < n;
    var tail := Children(n, mat, v, lBest, k + 1);
    ChildrenUnfold(n, mat, v, lBest, k);
    if Promising(n, mat, v, lBest, k) {
      var c := Child(n, mat, v, k);
      assert Children(n, mat, v, lBest, k) == [c] + tail;
      if h[|v.cities| + 1] > k {
        ChildrenCover(n, mat, v, lBest, k + 1, h);
        CoveredByAppend([c], tail, h);
      } else if Covers(c, h) {
        assert ([c] + tail)[0] == c;
      }
    } else {
      assert Children(n, mat, v, lBest, k) == tail by {
        assert [] + tail == tail;
      }
      if h[|v.cities| + 1] > k {
        ChildrenCover(n, mat, v, lBest, k + 1, h);
      }
    }
  }

  /** A tour continuing a record never returns home at once. */
  lemma {:induction false} NextIsNotHome(n: int, v: EntryView, h: seq<int>)
    requires IsPartialTour(n, Extended(v)) && Covers(v, h) && IsHamiltonian(n, h)
    ensures |v.cities| + 1 < |h| ==> h[|v.cities| + 1] > 0
  {
    if |v.cities| + 1 < |h| {
      assert h[..|v.cities| + 1] == Extended(v);
      assert h[0] == 0;
    }
  }

  lemma {:induction false} MeasureAppend(n: int, a: seq<EntryView>, b: seq<EntryView>)
    requires n >= 1
    ensures Measure(n, a + b) == Measure(n, a) + Measure(n, b)
    decreases |a|
  {
    if a != [] {
      MeasureAppend(n, a[1..], b);
      assert (a + b)[1..] == a[1..] + b;
    } else {
      assert a + b == b;
    }
  }

  lemma {:induction false} MeasureUniform(n: int, cs: seq<EntryView>, c: int)
    requires n >= 1
    requires forall j :: 0 <= j < |cs| ==> |cs[j].cities| == c
    ensures Measure(n, cs) == Scale(|cs|, Weight(n, c))
    decreases |cs|
  {
    if cs != [] {
      assert forall j :: 0 <= j < |cs| - 1 ==> cs[1..][j] == cs[j + 1];
      MeasureUniform(n, cs[1..], c);
    }
  }

  lemma {:induction false} AllGoodAppend(n: int, mat: seq<int>, a: seq<EntryView>, b: seq<EntryView>)
    requires |mat| == n * n && AllGood(n, mat, a) && AllGood(n, mat, b)
    ensures AllGood(n, mat, a + b)
  {
    forall j | 0 <= j < |a + b| ensures GoodView(n, mat, (a + b)[j]) {
      if j >= |a| {
        assert (a + b)[j] == b[j - |a|];
      } else {
        assert (a + b)[j] == a[j];
      }
    }
  }

  /** What one pass of the search loop does to the records, given as views:
      the top record is replaced by nothing when its extension is a complete
      tour, and by its children otherwise. */
  ghost function Successors(n: int, mat: seq<int>, vs: seq<EntryView>, lBest: int): seq<EntryView>
    requires |mat| == n * n && |vs| > 0 && 0 <= vs[0].city < n
  {
    (if |vs[0].cities| + 1 == n then [] else Children(n, mat, vs[0], lBest, 1)) + vs[1..]
  }

  /** The tail of a list of good records is good. */
  lemma {:induction false} AllGoodTail(n: int, mat: seq<int>, vs: seq<EntryView>)
    requires |mat| == n * n && |vs| > 0 && AllGood(n, mat, vs)
    ensures GoodView(n, mat, vs[0]) && AllGood(n, mat, vs[1..])
  {
    forall j | 0 <= j < |vs| - 1 ensures GoodView(n, mat, vs[1..][j]) {
      assert vs[1..][j] == vs[j + 1];
    }
  }

  /** One pass of the search loop keeps every record good. */
  lemma {:induction false} StepGood(n: int, mat: seq<int>, vs: seq<EntryView>, lBest: int)
    requires IsMatrix(n, mat) && |vs| > 0 && AllGood(n, mat, vs)
    ensures AllGood(n, mat, Successors(n, mat, vs, lBest))
  {
    AllGoodTail(n, mat, vs);
    var v := vs[0];
    if |v.cities| + 1 < n {
      var cs := Children(n, mat, v, lBest, 1);
      ChildrenGood(n, mat, v, lBest, 1);
      assert AllGood(n, mat, cs);
      AllGoodAppend(n, mat, cs, vs[1..]);
      assert Successors(n, mat, vs, lBest) == cs + vs[1..];
    } else {
      assert Successors(n, mat, vs, lBest) == vs[1..] by {
        assert [] + vs[1..] == vs[1..];
      }
    }
  }

  /** The children of a record weigh less than the record: at most n-1 of
      them, each one city longer. */
  lemma {:induction false} ChildrenLighter(n: int, mat: seq<int>, v: EntryView, lBest: int)
    requires IsMatrix(n, mat) && 0 <= v.city < n && |v.cities| + 1 < n
    ensures Measure(n, Children(n, mat, v, lBest, 1)) < Weight(n, |v.cities|)
  {
    var cs := Children(n, mat, v, lBest, 1);
    ChildrenSize(n, mat, v, lBest, 1);
    MeasureUniform(n, cs, |v.cities| + 1);
    ScaleMono(|cs|, n - 1, Weight(n, |v.cities| + 1));
  }

  /** One pass of the search loop strictly lowers the measure. */
  lemma {:induction false} StepMeasure(n: int, mat: seq<int>, vs: seq<EntryView>, lBest: int)
    requires IsMatrix(n, mat) && |vs| > 0 && AllGood(n, mat, vs)
    ensures Measure(n, Successors(n, mat, vs, lBest)) < Measure(n, vs)
  {
    AllGoodTail(n, mat, vs);
    var v, rest := vs[0], vs[1..];
    assert Measure(n, vs) == Weight(n, |v.cities|) + Measure(n, rest);
    if |v.cities| + 1 < n {
      var cs := Children(n, mat, v, lBest, 1);
      ChildrenLighter(n, mat, v, lBest);
      MeasureAppend(n, cs, rest);
      assert Successors(n, mat, vs, lBest) == cs + rest;
    } else {
      assert Successors(n, mat, vs, lBest) == rest by {
        assert [] + rest == rest;
      }
    }
  }

  /** A complete tour that a record leads to is the record's extended tour. */
  lemma {:induction false} CompleteCovers(n: int, v: EntryView, h: seq<int>)
    requires |v.cities| + 1 == n && IsHamiltonian(n, h) && Covers(v, h)
    ensures h == Extended(v)
  {
    assert h == h[..|v.cities| + 1];
  }

  /** Every tour some record led to is still led to by a record after one
      pass of the search loop, or costs at least bc: the champion's new cost,
      which is at most the bound the pass used, and at most the cost of the
      complete tour the pass offered. */
  lemma {:induction false} StepCovers(n: int, mat: seq<int>, vs: seq<EntryView>, lBest: int, bc: int, h: seq<int>)
    requires IsMatrix(n, mat) && NonNegative(mat) && |vs| > 0 && AllGood(n, mat, vs) && bc <= lBest
    requires |vs[0].cities| + 1 == n ==>
               IsHamiltonian(n, Extended(vs[0])) && bc <= CycleCost(n, mat, Extended(vs[0]))
    requires IsHamiltonian(n, h) && CoveredBy(vs, h)
    ensures CoveredBy(Successors(n, mat, vs, lBest), h) || bc <= CycleCost(n, mat, h)
  {
    AllGoodTail(n, mat, vs);
    var v, rest := vs[0], vs[1..];
    CoverCases(vs, h);
    if |v.cities| + 1 == n {
      assert Successors(n, mat, vs, lBest) == rest by {
        assert [] + rest == rest;
      }
      if Covers(v, h) {
        CompleteCovers(n, v, h);
      }
    } else {
      var cs := Children(n, mat, v, lBest, 1);
      CoveredByAppend(cs, rest, h);
      if Covers(v, h) {
        NextChildCovers(n, mat, v, lBest, h);
        ChildrenCover(n, mat, v, lBest, 1, h);
      }
    }
  }
}
