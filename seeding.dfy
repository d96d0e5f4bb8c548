/** Per-thread seeding: the n-1 first moves 1 .. n-1 are cut into threadCount
    contiguous blocks whose sizes differ by at most one; the worker of rank r
    seeds its stack with the moves of block r. */
module Seeding {
  import opened Tours
  import opened WorkStacks

  ghost predicate Params(n: int, threadCount: int) {
    n >= 1 && threadCount >= 1
  }

  function Quotient(n: int, threadCount: int): (q: int)
    requires Params(n, threadCount)
    ensures q >= 0
  {
    (n - 1) / threadCount
  }

  function Remainder(n: int, threadCount: int): (r: int)
    requires Params(n, threadCount)
    ensures 0 <= r < threadCount
    ensures Quotient(n, threadCount) * threadCount + r == n - 1
  {
    (n - 1) % threadCount
  }

  /** partial_tour_count: how many first moves the worker of this rank gets. */
  function PartialTourCount(n: int, threadCount: int, rank: int): (c: int)
    requires Params(n, threadCount)
    ensures c >= 0
  {
    if rank < Remainder(n, threadCount) then Quotient(n, threadCount) + 1
    else Quotient(n, threadCount)
  }

  /** first_final_city.  Defined for every rank >= 0 so that rank threadCount
      names the end of the last block. */
  function FirstFinalCity(n: int, threadCount: int, rank: int): int
    requires Params(n, threadCount)
  {
    if rank < Remainder(n, threadCount) then rank * PartialTourCount(n, threadCount, rank) + 1
    else rank * PartialTourCount(n, threadCount, rank) + Remainder(n, threadCount) + 1
  }

  function LastFinalCity(n: int, threadCount: int, rank: int): int
    requires Params(n, threadCount)
  {
    FirstFinalCity(n, threadCount, rank) + PartialTourCount(n, threadCount, rank) - 1
  }

  ghost predicate InSlice(n: int, threadCount: int, rank: int, c: int)
    requires Params(n, threadCount)
  {
    FirstFinalCity(n, threadCount, rank) <= c <= LastFinalCity(n, threadCount, rank)
  }

  /** Blocks are consecutive: each begins right after the previous one ends. */
  lemma {:induction false} NextBlock(n: int, threadCount: int, rank: int)
    requires Params(n, threadCount) && rank >= 0
    ensures FirstFinalCity(n, threadCount, rank + 1) == LastFinalCity(n, threadCount, rank) + 1
  {
    var q, r := Quotient(n, threadCount), Remainder(n, threadCount);
    if rank + 1 < r {
      assert (rank + 1) * (q + 1) == rank * (q + 1) + (q + 1);
    } else if rank + 1 == r {
      assert (rank + 1) * q == rank * (q + 1) + (q + 1) - r;
    } else {
      assert (rank + 1) * q == rank * q + q;
    }
  }

  /** The first block starts at city 1 and the block after the last starts at n. */
  lemma {:induction false} Ends(n: int, threadCount: int)
    requires Params(n, threadCount)
    ensures FirstFinalCity(n, threadCount, 0) == 1
    ensures FirstFinalCity(n, threadCount, threadCount) == n
  {
    var q, r := Quotient(n, threadCount), Remainder(n, threadCount);
    assert threadCount * q + r == n - 1;
  }

  /** Block sizes: quotient+1 below the remainder, quotient from there on, so
      any two blocks differ in size by at most one. */
  lemma {:induction false} BlockSizes(n: int, threadCount: int, r1: int, r2: int)
    requires Params(n, threadCount) && 0 <= r1 < threadCount && 0 <= r2 < threadCount
    ensures LastFinalCity(n, threadCount, r1) - FirstFinalCity(n, threadCount, r1) + 1
              == PartialTourCount(n, threadCount, r1)
    ensures PartialTourCount(n, threadCount, r1) ==
              if r1 < Remainder(n, threadCount) then Quotient(n, threadCount) + 1 else Quotient(n, threadCount)
    ensures -1 <= PartialTourCount(n, threadCount, r1) - PartialTourCount(n, threadCount, r2) <= 1
    ensures PartialTourCount(n, threadCount, r1) >= 0
  {
  }

  lemma {:induction false} FirstMonotone(n: int, threadCount: int, r1: int, r2: int)
    requires Params(n, threadCount) && 0 <= r1 <= r2
    ensures FirstFinalCity(n, threadCount, r1) <= FirstFinalCity(n, threadCount, r2)
    decreases r2 - r1
  {
    if r1 < r2 {
      FirstMonotone(n, threadCount, r1, r2 - 1);
      NextBlock(n, threadCount, r2 - 1);
      assert PartialTourCount(n, threadCount, r2 - 1) >= 0;
    }
  }

  /** Blocks of different ranks share no city. */
  lemma {:induction false} SlicesDisjoint(n: int, threadCount: int, r1: int, r2: int, c: int)
    requires Params(n, threadCount) && 0 <= r1 < threadCount && 0 <= r2 < threadCount && r1 != r2
    requires InSlice(n, threadCount, r1, c)
    ensures !InSlice(n, threadCount, r2, c)
  {
    if r1 < r2 {
      NextBlock(n, threadCount, r1);
      FirstMonotone(n, threadCount, r1 + 1, r2);
    } else {
      NextBlock(n, threadCount, r2);
      FirstMonotone(n, threadCount, r2 + 1, r1);
    }
  }

  /** Every block of a real rank lies inside 1 .. n-1. */
  lemma {:induction false} SliceInRange(n: int, threadCount: int, rank: int)
    requires Params(n, threadCount) && 0 <= rank < threadCount
    ensures 1 <= FirstFinalCity(n, threadCount, rank)
    ensures LastFinalCity(n, threadCount, rank) <= n - 1
  {
    Ends(n, threadCount);
    FirstMonotone(n, threadCount, 0, rank);
    NextBlock(n, threadCount, rank);
    FirstMonotone(n, threadCount, rank + 1, threadCount);
  }

  lemma {:induction false} CoverBelow(n: int, threadCount: int, k: int, c: int)
    requires Params(n, threadCount) && 0 <= k <= threadCount
    requires 1 <= c < FirstFinalCity(n, threadCount, k)
    ensures exists r :: 0 <= r < k && InSlice(n, threadCount, r, c)
    decreases k
  {
    Ends(n, threadCount);
    assert k > 0;
    NextBlock(n, threadCount, k - 1);
    if c < FirstFinalCity(n, threadCount, k - 1) {
      CoverBelow(n, threadCount, k - 1, c);
    } else {
      assert InSlice(n, threadCount, k - 1, c);
    }
  }

  /** Every city 1 .. n-1 lies in the block of some rank. */
  lemma {:induction false} SlicesCover(n: int, threadCount: int, c: int)
    requires Params(n, threadCount) && 1 <= c <= n - 1
    ensures exists r :: 0 <= r < threadCount && InSlice(n, threadCount, r, c)
  {
    Ends(n, threadCount);
    CoverBelow(n, threadCount, threadCount, c);
  }

  /** A fresh tour that has visited home only: Initialize_tour, then city 0 appended. */
  method HomeTour(n: int) returns (t: Tour)
    requires n >= 1
    ensures fresh(t) && fresh(t.cities) && t.cities.Length == n + 1
    ensures t.count == 1 && t.cities[0] == 0 && t.cost == 0
  {
    t := new Tour.Initialize(n);
    t.cities[t.count] := 0;
    t.count := t.count + 1;
  }

  /** A seeded record: a tour that has visited home only, with room for n+1
      cities, the first move `city` and the edge cost from home to it. */
  ghost predicate IsSeed(n: int, mat: seq<int>, e: Entry, city: int)
    reads e.tour, e.tour.cities
    requires IsMatrix(n, mat)
  {
    && e.tour.cities.Length == n + 1
    && e.tour.count == 1 && e.tour.cities[0] == 0 && e.tour.cost == 0
    && e.city == city && 0 < city < n && e.cost == Cost(n, mat, 0, city)
  }

  /** The record the seeding loop builds for first move i; its edge cost is
      mat[i], the entry of row 0. */
  method SeedRecord(n: int, mat: seq<int>, i: int) returns (e: Entry)
    requires IsMatrix(n, mat) && 0 < i < n
    ensures fresh(e.tour) && fresh(e.tour.cities) && IsSeed(n, mat, e, i)
  {
    var t := HomeTour(n);
    e := Entry(t, i, Cost(n, mat, 0, i));
  }

  /** The records of stack seed the first moves first, first+1, ... in order. */
  ghost predicate SeedsFrom(n: int, mat: seq<int>, stack: seq<Entry>, first: int)
    reads set j | 0 <= j < |stack| :: stack[j].tour
    reads set j | 0 <= j < |stack| :: stack[j].tour.cities
    requires IsMatrix(n, mat)
  {
    forall j :: 0 <= j < |stack| ==> IsSeed(n, mat, stack[j], first + j)
  }

  /** Appending the seed for the next move keeps the seeds in order and
      keeps the records apart. */
  lemma {:induction false} SeedsSnoc(n: int, mat: seq<int>, stack: seq<Entry>, first: int, e: Entry)
    requires IsMatrix(n, mat) && SeedsFrom(n, mat, stack, first) && IsSeed(n, mat, e, first + |stack|)
    requires Separate(stack) && Avoids(stack, e.tour)
    ensures SeedsFrom(n, mat, stack + [e], first) && Separate(stack + [e])
  {
    SeparateSnoc(stack, e);
    var s := stack + [e];
    forall j | 0 <= j < |s| ensures IsSeed(n, mat, s[j], first + j) {
      if j < |stack| {
        assert s[j] == stack[j];
      }
    }
  }

  /** What the seeded records stand for: tour [0] at cost 0, and the record's
      first move and edge cost. */
  ghost function SeedViews(stack: seq<Entry>): seq<EntryView>
  {
    seq(|stack|, j requires 0 <= j < |stack| => EntryView([0], 0, stack[j].city, stack[j].cost))
  }

  /** What the block of this rank seeds, from its inputs alone: for the k-th
      first move c of the block, tour [0] at cost 0, city c and the edge cost
      from home to c. */
  ghost function BlockSeeds(n: int, mat: seq<int>, threadCount: int, rank: int): seq<EntryView>
    requires IsMatrix(n, mat) && Params(n, threadCount) && 0 <= rank < threadCount
  {
    SliceInRange(n, threadCount, rank);
    BlockSizes(n, threadCount, rank, rank);
    var first := FirstFinalCity(n, threadCount, rank);
    seq(PartialTourCount(n, threadCount, rank),
        k requires 0 <= k < PartialTourCount(n, threadCount, rank) =>
          EntryView([0], 0, first + k, Cost(n, mat, 0, first + k)))
  }

  /** The records the seeding loop builds view as the block's seeds. */
  lemma {:induction false} SeedsAreBlock(n: int, mat: seq<int>, threadCount: int, rank: int, stack: seq<Entry>)
    requires IsMatrix(n, mat) && Params(n, threadCount) && 0 <= rank < threadCount
    requires |stack| == PartialTourCount(n, threadCount, rank)
    requires SeedsFrom(n, mat, stack, FirstFinalCity(n, threadCount, rank))
    ensures SeedViews(stack) == BlockSeeds(n, mat, threadCount, rank)
  {
    var first := FirstFinalCity(n, threadCount, rank);
    var a, b := SeedViews(stack), BlockSeeds(n, mat, threadCount, rank);
    forall k | 0 <= k < |a| ensures a[k] == b[k] {
      assert IsSeed(n, mat, stack[k], first + k);
    }
  }

  /** The seeded records are valid, have room for n cities, and view as SeedViews says. */
  lemma {:induction false} SeedsMirror(n: int, mat: seq<int>, stack: seq<Entry>, first: int)
    requires IsMatrix(n, mat) && SeedsFrom(n, mat, stack, first)
    ensures Mirrors(n, stack, SeedViews(stack))
  {
    var vs := SeedViews(stack);
    forall j | 0 <= j < |stack| ensures stack[j].tour.Valid() && stack[j].tour.cities.Length >= n && View(stack[j]) == vs[j] {
      assert IsSeed(n, mat, stack[j], first + j);
      assert stack[j].tour.cities[..1] == [0];
    }
  }

  /** The seeded views are good records. */
  lemma {:induction false} SeedsGood(n: int, mat: seq<int>, stack: seq<Entry>, first: int)
    requires IsMatrix(n, mat) && SeedsFrom(n, mat, stack, first)
    ensures AllGood(n, mat, SeedViews(stack))
  {
    var vs := SeedViews(stack);
    forall j | 0 <= j < |vs| ensures GoodView(n, mat, vs[j]) {
      assert IsSeed(n, mat, stack[j], first + j);
      assert [0][0] == 0;
    }
  }

  /** Every tour whose first move is seeded is led to by its seed. */
  lemma {:induction false} SeedsCover(n: int, mat: seq<int>, stack: seq<Entry>, first: int, h: seq<int>)
    requires IsMatrix(n, mat) && SeedsFrom(n, mat, stack, first)
    requires IsHamiltonian(n, h) && n >= 2 && first <= h[1] < first + |stack|
    ensures CoveredBy(SeedViews(stack), h)
  {
    var vs := SeedViews(stack);
    var j := h[1] - first;
    assert IsSeed(n, mat, stack[j], first + j);
    assert Covers(vs[j], h) by {
      assert h[..2] == [0, h[1]];
    }
  }

  /** The seeding loop of Search: one record per first move i of the block,
      appended at the tail so that the block's first move is on top. */
  method SeedStack(n: int, mat: seq<int>, threadCount: int, rank: int)
    returns (stack: seq<Entry>, seeded: int)
    requires IsMatrix(n, mat) && Params(n, threadCount) && 0 <= rank < threadCount
    ensures seeded == |stack| == PartialTourCount(n, threadCount, rank)
    ensures Separate(stack) && SeedsFrom(n, mat, stack, FirstFinalCity(n, threadCount, rank))
    ensures forall e :: e in stack ==> fresh(e.tour) && fresh(e.tour.cities)
  {
    SliceInRange(n, threadCount, rank);
    var first := FirstFinalCity(n, threadCount, rank);
    var last := LastFinalCity(n, threadCount, rank);
    stack, seeded := [], 0;
    var i := first;
    while i <= last
      invariant first <= i <= last + 1 && |stack| == i - first && seeded == |stack|
      invariant Separate(stack) && SeedsFrom(n, mat, stack, first)
      invariant forall e :: e in stack ==> fresh(e.tour) && fresh(e.tour.cities)
    {
      var e := SeedRecord(n, mat, i);
      SeedsSnoc(n, mat, stack, first, e);
      stack := stack + [e];
      seeded := seeded + 1;
      i := i + 1;
    }
  }
}
