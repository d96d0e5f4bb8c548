/** The shared best tour ("champion") and Check_best_tour, its only update.
    The reader/writer lock around it is not modelled; what remains is the
    sequential effect of the critical sections. */
module Champion {
  import opened Tours

  /** The champion is either still the initial "no tour, cost INFINITY", or a
      closed tour through every city whose recorded cost is its true cost. */
  ghost predicate ChampionOk(n: int, mat: seq<int>, best: Tour)
    reads best, best.cities
    requires IsMatrix(n, mat)
  {
    && best.Valid() && best.cities.Length == n + 1 && best.cost <= INFINITY
    && (best.cost < INFINITY ==>
          && best.count == n + 1 && best.cities[n] == 0
          && IsHamiltonian(n, best.cities[..n])
          && best.cost == CycleCost(n, mat, best.cities[..n]))
  }

  /** Check_best_tour: t holds a tour ending at city; closing it costs
      t.cost + mat[city*n + 0].  The caller's bound receives the champion's
      cost as it was when the check began; the champion changes only when the
      closed tour is strictly cheaper, and then becomes that closed tour. */
  method CheckBestTour(n: int, mat: seq<int>, city: int, t: Tour, best: Tour) returns (lBest: int)
    requires |mat| == n * n && 0 <= city < n
    requires t.Valid() && t.count <= n && t != best && t.cities != best.cities
    requires best.Valid() && best.cities.Length == n + 1
    modifies best, best.cities
    ensures lBest == old(best.cost)
    ensures best.cost <= old(best.cost) && best.cost <= t.cost + Cost(n, mat, city, 0)
    ensures old(t.cost + Cost(n, mat, city, 0) < best.cost) ==>
              && best.cities[..t.count] == t.Path() && best.cities[n] == 0
              && best.cities[t.count..n] == old(best.cities[t.count..n])
              && best.count == n + 1 && best.cost == t.cost + Cost(n, mat, city, 0)
    ensures old(t.cost + Cost(n, mat, city, 0) >= best.cost) ==>
              best.count == old(best.count) && best.cost == old(best.cost) && best.cities[..] == old(best.cities[..])
    ensures best.Valid()
  {
    lBest := best.cost;
    if t.cost + Cost(n, mat, city, 0) < best.cost {
      // the source re-checks after trading its read lock for the write lock
      if t.cost + Cost(n, mat, city, 0) < best.cost {
        var i := 0;
        while i < t.count
          invariant 0 <= i <= t.count
          invariant best.cities[..i] == t.cities[..i]
          invariant best.cities[i..] == old(best.cities[i..])
        {
          best.cities[i] := t.cities[i];
          i := i + 1;
        }
        best.cities[n] := 0;
        best.count := n + 1;
        best.cost := t.cost + Cost(n, mat, city, 0);
      }
    }
  }

  /** Offering a complete tour (all n cities, priced at its path cost) keeps the
      champion well formed, and leaves it no dearer than that closed tour. */
  method OfferCompleteTour(n: int, mat: seq<int>, city: int, t: Tour, best: Tour) returns (lBest: int)
    requires |mat| == n * n && 0 <= city < n
    requires t.Valid() && t.count == n && t != best && t.cities != best.cities
    requires IsHamiltonian(n, t.Path()) && t.Path()[n - 1] == city
    requires t.cost == PathCost(n, mat, t.Path())
    requires ChampionOk(n, mat, best)
    modifies best, best.cities
    ensures ChampionOk(n, mat, best)
    ensures lBest == old(best.cost) && best.cost <= old(best.cost)
    ensures best.cost <= CycleCost(n, mat, t.Path())
  {
    lBest := CheckBestTour(n, mat, city, t, best);
    if best.cost < old(best.cost) {
      assert best.cities[..n] == t.Path();
    }
  }
}
