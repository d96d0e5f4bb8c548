/** Cities, the cost matrix and the tour record shared by both search programs.

    Cities are the integers 0 .. n-1; city 0 is the salesperson's home.  The
    cost matrix is a flat, row-major table `mat` of n*n entries: the cost of
    travelling from city i to city j is `mat[n*i + j]`. */
module Tours {

  /** The cost the champion starts from, and the initial local bound of a worker. */
  const INFINITY: int := 1000000
  /** The filler written into the unused slots of a fresh tour. */
  const NO_CITY: int := -1

  ghost predicate IsMatrix(n: int, mat: seq<int>) {
    n >= 1 && |mat| == n * n
  }

  /** Costs are non-negative (the loader's precondition on the input). */
  ghost predicate NonNegative(mat: seq<int>) {
    forall k :: 0 <= k < |mat| ==> mat[k] >= 0
  }

  lemma {:induction false} IndexInRange(n: int, i: int, j: int)
    requires 0 <= i < n && 0 <= j < n
    ensures 0 <= n * i + j < n * n
  {
    assert n * i <= n * (n - 1) by {
      assert n * (n - 1) - n * i == n * (n - 1 - i);
    }
  }

  /** The cost of the edge from city i to city j. */
  function Cost(n: int, mat: seq<int>, i: int, j: int): int
    requires |mat| == n * n && 0 <= i < n && 0 <= j < n
  {
    IndexInRange(n, i, j);
    mat[n * i + j]
  }

  ghost predicate AllCities(n: int, p: seq<int>) {
    forall k :: 0 <= k < |p| ==> 0 <= p[k] < n
  }

  ghost predicate Distinct(p: seq<int>) {
    forall i, j :: 0 <= i < j < |p| ==> p[i] != p[j]
  }

  /** A partial tour: it starts at home and never visits a city twice. */
  ghost predicate IsPartialTour(n: int, p: seq<int>) {
    |p| >= 1 && p[0] == 0 && AllCities(n, p) && Distinct(p)
  }

  /** A path from home through every city exactly once; closed by the edge back home. */
  ghost predicate IsHamiltonian(n: int, p: seq<int>) {
    |p| == n && IsPartialTour(n, p)
  }

  /** The sum of the costs of the consecutive edges along p. */
  ghost function PathCost(n: int, mat: seq<int>, p: seq<int>): int
    requires |mat| == n * n && AllCities(n, p)
    decreases |p|
  {
    if |p| <= 1 then 0
    else PathCost(n, mat, p[..|p| - 1]) + Cost(n, mat, p[|p| - 2], p[|p| - 1])
  }

  /** The cost of the closed tour p + [0]. */
  ghost function CycleCost(n: int, mat: seq<int>, p: seq<int>): int
    requires |mat| == n * n && IsHamiltonian(n, p)
  {
    PathCost(n, mat, p) + Cost(n, mat, p[n - 1], 0)
  }

  /** Extending a path by one city adds exactly the cost of the new edge. */
  lemma {:induction false} PathCostSnoc(n: int, mat: seq<int>, p: seq<int>, c: int)
    requires |mat| == n * n && AllCities(n, p) && |p| >= 1 && 0 <= c < n
    ensures AllCities(n, p + [c])
    ensures PathCost(n, mat, p + [c]) == PathCost(n, mat, p) + Cost(n, mat, p[|p| - 1], c)
  {
    var q := p + [c];
    forall k | 0 <= k < |q| ensures 0 <= q[k] < n {
      if k < |p| {
        assert q[k] == p[k];
      }
    }
    assert q[..|q| - 1] == p;
    assert q[|q| - 2] == p[|p| - 1] && q[|q| - 1] == c;
    assert PathCost(n, mat, q) == PathCost(n, mat, q[..|q| - 1]) + Cost(n, mat, q[|q| - 2], q[|q| - 1]);
  }

  /** Appending an unvisited city to a partial tour gives a partial tour. */
  lemma {:induction false} PartialTourSnoc(n: int, p: seq<int>, c: int)
    requires IsPartialTour(n, p) && 0 <= c < n && c !in p
    ensures IsPartialTour(n, p + [c])
  {
    var q := p + [c];
    forall i, j | 0 <= i < j < |q| ensures q[i] != q[j] {
      if j == |p| {
        assert q[i] == p[i] && q[j] == c;
      } else {
        assert q[i] == p[i] && q[j] == p[j];
      }
    }
    assert forall k :: 0 <= k < |q| ==> q[k] == if k < |p| then p[k] else c;
  }

  /** With non-negative costs, a prefix of a path costs no more than the path. */
  lemma {:induction false} PathCostPrefix(n: int, mat: seq<int>, p: seq<int>, k: int)
    requires |mat| == n * n && NonNegative(mat) && AllCities(n, p) && 0 <= k <= |p|
    ensures AllCities(n, p[..k]) && PathCost(n, mat, p[..k]) <= PathCost(n, mat, p)
    decreases |p| - k
  {
    if k < |p| {
      PathCostPrefix(n, mat, p, k + 1);
      var q := p[..k + 1];
      assert q[..k] == p[..k];
      if k >= 1 {
        IndexInRange(n, q[k - 1], q[k]);
        assert PathCost(n, mat, q) == PathCost(n, mat, p[..k]) + Cost(n, mat, q[k - 1], q[k]);
      }
    } else {
      assert p[..k] == p;
    }
  }

  /** With non-negative costs, no prefix of a tour costs more than the closed tour. */
  lemma {:induction false} PrefixBelowCycle(n: int, mat: seq<int>, h: seq<int>, k: int)
    requires |mat| == n * n && NonNegative(mat) && IsHamiltonian(n, h) && 0 <= k <= n
    ensures AllCities(n, h[..k]) && PathCost(n, mat, h[..k]) <= CycleCost(n, mat, h)
  {
    PathCostPrefix(n, mat, h, k);
    IndexInRange(n, h[n - 1], 0);
  }

  /** A tour record: `cities[..count]` are the cities visited so far, `cost` their running cost. */
  class Tour {
    const cities: array<int>
    var count: int
    var cost: int

    ghost predicate Valid()
      reads this
    {
      0 <= count <= cities.Length
    }

    /** The visited prefix. */
    ghost function Path(): seq<int>
      reads this, cities
      requires Valid()
    {
      cities[..count]
    }

    /** Initialize_tour: room for n+1 cities, all NO_CITY, nothing visited yet. */
    constructor Initialize(n: int)
      requires n >= 0
      ensures fresh(cities) && cities.Length == n + 1
      ensures forall k :: 0 <= k <= n ==> cities[k] == NO_CITY
      ensures count == 0 && cost == 0 && Valid() && Path() == []
    {
      var a := new int[n + 1];
      var i := 0;
      while i <= n
        invariant 0 <= i <= n + 1
        invariant forall k :: 0 <= k < i ==> a[k] == NO_CITY
      {
        a[i] := NO_CITY;
        i := i + 1;
      }
      cities := a;
      cost := 0;
      count := 0;
    }

    /** Dup_tour: a fresh tour with a copy of the first n slots of src, its count and its cost. */
    constructor Dup(n: int, src: Tour)
      requires 0 <= n <= src.cities.Length
      ensures fresh(cities) && cities.Length == n
      ensures cities[..] == src.cities[..n]
      ensures count == src.count && cost == src.cost
    {
      var a := new int[n];
      var i := 0;
      while i < n
        invariant 0 <= i <= n
        invariant forall k :: 0 <= k < i ==> a[k] == src.cities[k]
      {
        a[i] := src.cities[i];
        i := i + 1;
      }
      cities := a;
      cost := src.cost;
      count := src.count;
    }

    /** The search's extension step: city appended to the visited prefix,
        the edge cost added to the running cost. */
    method Extend(city: int, edge: int)
      requires Valid() && count < cities.Length
      modifies this, cities
      ensures Valid() && count == old(count) + 1
      ensures Path() == old(Path()) + [city] && cost == old(cost) + edge
      ensures cities[..] == old(cities[..][count := city])
    {
      cities[count] := city;
      cost := cost + edge;
      count := count + 1;
    }

    /** Visited: a linear scan of the visited prefix for nbr. */
    method Visited(nbr: int) returns (b: bool)
      requires Valid()
      ensures b <==> nbr in Path()
    {
      var i := 0;
      while i < count
        invariant 0 <= i <= count
        invariant forall k :: 0 <= k < i ==> cities[k] != nbr
      {
        if cities[i] == nbr {
          return true;
        }
        i := i + 1;
      }
      return false;
    }
  }

  /** Feasible: nbr is worth trying next when it is unvisited and the partial
      cost after the edge city -> nbr stays strictly below the bound. */
  method Feasible(n: int, mat: seq<int>, city: int, nbr: int, t: Tour, lBest: int) returns (ok: bool)
    requires |mat| == n * n && 0 <= city < n && 0 <= nbr < n && t.Valid()
    ensures ok <==> nbr !in t.Path() && t.cost + Cost(n, mat, city, nbr) < lBest
  {
    var visited := t.Visited(nbr);
    ok := !visited && t.cost + Cost(n, mat, city, nbr) < lBest;
  }
}
