/** The depth-first search of one worker (Search in the static-partition
    program), and the whole program's run with its workers taken one rank
    after another. */
module Search {
  import opened Tours
  import opened WorkStacks
  import opened Champion
  import opened Seeding
  import opened Expansion

  /** Push of the extension of t towards nbr: the new record views as w, the
      child for nbr, and shares nothing with the records below it, with t or
      with the champion. */
  method PushExtension(n: int, mat: seq<int>, t: Tour, city: int, nbr: int, ghost w: EntryView,
                       stack: seq<Entry>, ghost vs: seq<EntryView>, ghost best: Tour)
    returns (stack': seq<Entry>, ghost vs': seq<EntryView>)
    requires |mat| == n * n && 0 <= city < n && 0 <= nbr < n
    requires t.Valid() && t.cities.Length >= n && t.count <= n
    requires w == EntryView(t.Path(), t.cost, nbr, Cost(n, mat, city, nbr))
    requires Mirrors(n, stack, vs) && Separate(stack) && Avoids(stack, best)
    ensures |stack'| == |stack| + 1 && stack'[1..] == stack && vs' == [w] + vs
    ensures fresh(stack'[0].tour) && fresh(stack'[0].tour.cities)
    ensures Mirrors(n, stack', vs') && Separate(stack') && Avoids(stack', best)
  {
    stack' := Push(n, t, nbr, Cost(n, mat, city, nbr), stack);
    assert stack'[0].tour.Path() == t.Path() by {
      assert stack'[0].tour.cities[..t.count] == t.cities[..t.count];
    }
    MirrorsCons(n, stack'[0], stack, w, vs);
    assert stack' == [stack'[0]] + stack;
    vs' := [w] + vs;
    SeparateCons(stack'[0], stack);
    forall j | 0 <= j < |stack'|
      ensures stack'[j].tour != best && stack'[j].tour.cities != best.cities
    {
      if j > 0 {
        assert stack'[j] == stack[j - 1];
      }
    }
  }

  /** The state of the expansion loop once the neighbours n-1 down to
      nbr+1 are done: t is the popped tour with its city appended, and the
      records view as the children for nbr+1 .. n-1 above what the rest of the
      stack views as. */
  ghost predicate Expanding(n: int, mat: seq<int>, t: Tour, v0: EntryView, lBest: int, nbr: int,
                            stack: seq<Entry>, vs: seq<EntryView>, restVs: seq<EntryView>, best: Tour)
    reads t, t.cities, Footprint(stack)
  {
    && IsMatrix(n, mat) && 0 <= v0.city < n && 0 <= nbr < n
    && t.Valid() && t.Path() == Extended(v0) && t.cities.Length >= n && t.count <= n
    && t.cost == v0.tourCost + v0.cost
    && vs == Children(n, mat, v0, lBest, nbr + 1) + restVs
    && Mirrors(n, stack, vs) && Separate(stack) && Avoids(stack, best)
  }

  /** The feasible case of one pass of the expansion loop: the extension
      of t towards nbr pushed as a new record, the child for nbr. */
  method PushChild(n: int, mat: seq<int>, best: Tour, t: Tour, city: int, ghost v0: EntryView,
                   lBest: int, nbr: int, stack: seq<Entry>, ghost vs: seq<EntryView>, ghost restVs: seq<EntryView>)
    returns (stack': seq<Entry>, ghost vs': seq<EntryView>)
    requires IsMatrix(n, mat) && 0 <= v0.city < n && v0.city == city && 1 <= nbr < n
    requires Expanding(n, mat, t, v0, lBest, nbr, stack, vs, restVs, best)
    requires Promising(n, mat, v0, lBest, nbr)
    ensures Expanding(n, mat, t, v0, lBest, nbr - 1, stack', vs', restVs, best)
    ensures |stack'| == |stack| + 1
    ensures forall e :: e in stack' ==> e in stack || (fresh(e.tour) && fresh(e.tour.cities))
  {
    ghost var tail := Children(n, mat, v0, lBest, nbr + 1);
    ChildrenUnfold(n, mat, v0, lBest, nbr);
    ghost var c := Child(n, mat, v0, nbr);
    stack', vs' := PushExtension(n, mat, t, city, nbr, c, stack, vs, best);
    ConsAppend(c, tail, restVs);
    assert stack' == [stack'[0]] + stack;
  }

  /** The infeasible case of one pass of the expansion loop: nothing is
      pushed, and there is no child for nbr. */
  lemma {:induction false} SkipChild(n: int, mat: seq<int>, t: Tour, v0: EntryView, lBest: int, nbr: int,
                                     stack: seq<Entry>, vs: seq<EntryView>, restVs: seq<EntryView>, best: Tour)
    requires IsMatrix(n, mat) && 0 <= v0.city < n && 1 <= nbr < n
    requires Expanding(n, mat, t, v0, lBest, nbr, stack, vs, restVs, best)
    requires !Promising(n, mat, v0, lBest, nbr)
    ensures Expanding(n, mat, t, v0, lBest, nbr - 1, stack, vs, restVs, best)
  {
    ChildrenUnfold(n, mat, v0, lBest, nbr);
    assert [] + Children(n, mat, v0, lBest, nbr + 1) == Children(n, mat, v0, lBest, nbr + 1);
  }

  /** One pass of the expansion loop, for neighbour nbr: Feasible, and a
      push of the extension towards nbr when it holds.  Any record it adds is
      new. */
  method TryNeighbour(n: int, mat: seq<int>, best: Tour, t: Tour, city: int, ghost v0: EntryView,
                      lBest: int, nbr: int, stack: seq<Entry>, ghost vs: seq<EntryView>, ghost restVs: seq<EntryView>)
    returns (stack': seq<Entry>, ghost vs': seq<EntryView>, ok: bool)
    requires IsMatrix(n, mat) && 0 <= v0.city < n && v0.city == city && 1 <= nbr < n
    requires Expanding(n, mat, t, v0, lBest, nbr, stack, vs, restVs, best)
    ensures Expanding(n, mat, t, v0, lBest, nbr - 1, stack', vs', restVs, best)
    ensures ok == Promising(n, mat, v0, lBest, nbr)
    ensures |stack'| == |stack| + (if ok then 1 else 0)
    ensures forall e :: e in stack' ==> e in stack || (fresh(e.tour) && fresh(e.tour.cities))
  {
    ok := Feasible(n, mat, city, nbr, t, lBest);
    if ok {
      assert Promising(n, mat, v0, lBest, nbr);
      stack', vs' := PushChild(n, mat, best, t, city, v0, lBest, nbr, stack, vs, restVs);
    } else {
      assert !Promising(n, mat, v0, lBest, nbr);
      SkipChild(n, mat, t, v0, lBest, nbr, stack, vs, restVs, best);
      stack', vs' := stack, vs;
    }
  }

  /** Before the expansion loop no neighbour is done: no records above the
      rest of the stack. */
  lemma {:induction false} StartExpanding(n: int, mat: seq<int>, t: Tour, v0: EntryView, lBest: int,
                       rest: seq<Entry>, restVs: seq<EntryView>, best: Tour)
    requires IsMatrix(n, mat) && 0 <= v0.city < n && |v0.cities| + 1 < n
    requires t.Valid() && t.Path() == Extended(v0) && t.cities.Length >= n && t.cost == v0.tourCost + v0.cost
    requires Mirrors(n, rest, restVs) && Separate(rest) && Avoids(rest, best)
    ensures Expanding(n, mat, t, v0, lBest, n - 1, rest, restVs, restVs, best)
  {
    assert restVs == Children(n, mat, v0, lBest, n) + restVs;
  }

  /** After the expansion loop every neighbour is done: the records are the
      children of v0 above the rest of the stack. */
  lemma {:induction false} DoneExpanding(n: int, mat: seq<int>, t: Tour, v0: EntryView, lBest: int,
                      stack: seq<Entry>, vs: seq<EntryView>, restVs: seq<EntryView>, best: Tour)
    requires Expanding(n, mat, t, v0, lBest, 0, stack, vs, restVs, best)
    ensures vs == Children(n, mat, v0, lBest, 1) + restVs
    ensures Mirrors(n, stack, vs) && Separate(stack) && Avoids(stack, best)
  {
  }

  /** The expansion loop of Search: for nbr from n-1 down to 1, a record for
      every feasible neighbour; the records pushed are the children of the
      popped record, v0, for the bound lBest, and are all new. */
  method Expand(n: int, mat: seq<int>, best: Tour, t: Tour, city: int, ghost v0: EntryView,
                lBest: int, rest: seq<Entry>, ghost restVs: seq<EntryView>)
    returns (stack': seq<Entry>, ghost vs': seq<EntryView>)
    requires n >= 1 && v0.city == city
    requires Expanding(n, mat, t, v0, lBest, n - 1, rest, restVs, restVs, best)
    ensures Expanding(n, mat, t, v0, lBest, 0, stack', vs', restVs, best)
    ensures forall e :: e in stack' ==> e in rest || (fresh(e.tour) && fresh(e.tour.cities))
  {
    stack', vs' := rest, restVs;
    var nbr := n - 1;
    while nbr > 0
      invariant 0 <= nbr <= n - 1
      invariant Expanding(n, mat, t, v0, lBest, nbr, stack', vs', restVs, best)
      invariant forall e :: e in stack' ==> e in rest || (fresh(e.tour) && fresh(e.tour.cities))
    {
      var pushed;
      stack', vs', pushed := TryNeighbour(n, mat, best, t, city, v0, lBest, nbr, stack', vs', restVs);
      nbr := nbr - 1;
    }
  }

  /** Pop, then the extension step of the search loop: the popped tour gets
      the popped city and edge cost.  What the rest of the stack stands for
      and the champion are untouched. */
  method PopExtend(n: int, mat: seq<int>, stack: seq<Entry>, ghost vs: seq<EntryView>, best: Tour)
    returns (t: Tour, city: int, rest: seq<Entry>)
    requires IsMatrix(n, mat) && |stack| > 0
    requires Mirrors(n, stack, vs) && AllGood(n, mat, vs) && Separate(stack) && Avoids(stack, best)
    requires ChampionOk(n, mat, best)
    modifies stack[0].tour, stack[0].tour.cities
    ensures t == stack[0].tour && city == vs[0].city && rest == stack[1..]
    ensures GoodView(n, mat, vs[0])
    ensures t.Valid() && t.cities.Length >= n && t.Path() == Extended(vs[0]) && t.count == |vs[0].cities| + 1
    ensures t.cost == vs[0].tourCost + vs[0].cost
    ensures t != best && t.cities != best.cities
    ensures Mirrors(n, rest, vs[1..]) && Separate(rest)
    ensures Avoids(rest, best) && ChampionOk(n, mat, best)
  {
    PopFacts(n, mat, stack, vs);
    assert Avoids(stack[1..], best);
    var cost;
    t, city, cost, rest := Pop(stack);
    t.Extend(city, cost);
  }

  /** The complete-tour branch of the search loop: Check_best_tour, with the
      rest of the stack, which shares nothing with the champion, untouched. */
  method Complete(n: int, mat: seq<int>, city: int, t: Tour, best: Tour,
                  rest: seq<Entry>, ghost restVs: seq<EntryView>, ghost p: seq<int>) returns (lBest: int)
    requires IsMatrix(n, mat) && 0 <= city < n
    requires t.Valid() && t.count == n && t != best && t.cities != best.cities
    requires p == t.Path() && IsHamiltonian(n, p) && p[n - 1] == city
    requires t.cost == PathCost(n, mat, p)
    requires ChampionOk(n, mat, best)
    requires Mirrors(n, rest, restVs) && Avoids(rest, best)
    modifies best, best.cities
    ensures ChampionOk(n, mat, best)
    ensures lBest == old(best.cost) && best.cost <= old(best.cost)
    ensures best.cost <= CycleCost(n, mat, p)
    ensures Mirrors(n, rest, restVs)
  {
    lBest := OfferCompleteTour(n, mat, city, t, best);
  }

  /** One iteration of the search loop: pop a record, append its city to its
      tour; a tour through all n cities is offered to the champion, a shorter
      one is expanded.  The records are then the successors of the old ones
      for the bound lBest; a completed tour leaves the champion no dearer
      than it, and the new bound is the champion's cost before the offer. */
  method Step(n: int, mat: seq<int>, best: Tour, stack: seq<Entry>, ghost vs: seq<EntryView>, lBest: int)
    returns (stack': seq<Entry>, ghost vs': seq<EntryView>, lBest': int)
    requires IsMatrix(n, mat) && |stack| > 0
    requires Mirrors(n, stack, vs) && AllGood(n, mat, vs) && Separate(stack) && Avoids(stack, best)
    requires ChampionOk(n, mat, best)
    modifies stack[0].tour, stack[0].tour.cities, best, best.cities
    ensures vs' == Successors(n, mat, vs, lBest)
    ensures Mirrors(n, stack', vs') && Separate(stack') && Avoids(stack', best) && ChampionOk(n, mat, best)
    ensures forall e :: e in stack' ==> e in stack[1..] || (fresh(e.tour) && fresh(e.tour.cities))
    ensures best.cost <= old(best.cost)
    ensures |vs[0].cities| + 1 == n ==>
              && IsHamiltonian(n, Extended(vs[0])) && best.cost <= CycleCost(n, mat, Extended(vs[0]))
              && lBest' == old(best.cost)
    ensures |vs[0].cities| + 1 != n ==> lBest' == lBest
  {
    ghost var v0, restVs := vs[0], vs[1..];
    var t, city, rest := PopExtend(n, mat, stack, vs, best);
    ExtendedFacts(n, mat, v0);
    if t.count == n {
      lBest' := Complete(n, mat, city, t, best, rest, restVs, Extended(v0));
      stack', vs' := rest, restVs;
      assert vs' == Successors(n, mat, vs, lBest) by {
        assert [] + restVs == restVs;
      }
    } else {
      lBest' := lBest;
      StartExpanding(n, mat, t, v0, lBest, rest, restVs, best);
      stack', vs' := Expand(n, mat, best, t, city, v0, lBest, rest, restVs);
      DoneExpanding(n, mat, t, v0, lBest, stack', vs', restVs, best);
      assert vs' == Successors(n, mat, vs, lBest);
    }
  }

  /** The seeding part of Search: the rank's records, good, sharing no tour
      with each other or with the champion, and leading to every tour whose
      first move lies in the rank's block. */
  method Seed(n: int, mat: seq<int>, threadCount: int, rank: int, best: Tour)
    returns (stack: seq<Entry>, seeded: int, ghost vs: seq<EntryView>)
    requires IsMatrix(n, mat) && Params(n, threadCount) && 0 <= rank < threadCount
    ensures seeded == |stack| && vs == BlockSeeds(n, mat, threadCount, rank)
    ensures Mirrors(n, stack, vs) && AllGood(n, mat, vs) && Separate(stack) && Avoids(stack, best)
    ensures forall e :: e in stack ==> fresh(e.tour) && fresh(e.tour.cities)
    ensures forall h :: IsHamiltonian(n, h) && n >= 2 && InSlice(n, threadCount, rank, h[1]) ==> CoveredBy(vs, h)
  {
    stack, seeded := SeedStack(n, mat, threadCount, rank);
    vs := SeedViews(stack);
    ghost var first := FirstFinalCity(n, threadCount, rank);
    SeedsMirror(n, mat, stack, first);
    SeedsGood(n, mat, stack, first);
    SeedsAreBlock(n, mat, threadCount, rank, stack);
    assert Avoids(stack, best);
    forall h | IsHamiltonian(n, h) && n >= 2 && InSlice(n, threadCount, rank, h[1])
      ensures CoveredBy(vs, h)
    {
      SeedsCover(n, mat, stack, first, h);
    }
  }

  /** Every tour that the records vs0 led to is still led to by a record of
      vs, or costs at least bc. */
  ghost predicate Tracked(n: int, mat: seq<int>, vs0: seq<EntryView>, vs: seq<EntryView>, bc: int)
    requires IsMatrix(n, mat)
  {
    forall h :: IsHamiltonian(n, h) && CoveredBy(vs0, h) ==> CoveredBy(vs, h) || bc <= CycleCost(n, mat, h)
  }

  /** A pass of the search loop loses no tour: what the records led to
      before, their successors lead to, unless it costs at least bc, the
      champion's new cost. */
  lemma {:induction false} StepTracked(n: int, mat: seq<int>, vs0: seq<EntryView>,
                                       vs: seq<EntryView>, lBest: int, bcOld: int, bc: int)
    requires IsMatrix(n, mat) && NonNegative(mat)
    requires |vs| > 0 && AllGood(n, mat, vs) && bc <= lBest && bc <= bcOld
    requires |vs[0].cities| + 1 == n ==>
               IsHamiltonian(n, Extended(vs[0])) && bc <= CycleCost(n, mat, Extended(vs[0]))
    requires Tracked(n, mat, vs0, vs, bcOld)
    ensures Tracked(n, mat, vs0, Successors(n, mat, vs, lBest), bc)
  {
    forall h | IsHamiltonian(n, h) && CoveredBy(vs0, h)
      ensures CoveredBy(Successors(n, mat, vs, lBest), h) || bc <= CycleCost(n, mat, h)
    {
      if CoveredBy(vs, h) {
        StepCovers(n, mat, vs, lBest, bc, h);
      }
    }
  }

  /** Search, for the worker of this rank: seed the stack with the rank's
      block of first moves and search depth first until the stack is empty.
      Afterwards no tour whose first move lies in the block is cheaper than
      the champion, and the champion never got dearer. */
  method Search(n: int, mat: seq<int>, threadCount: int, rank: int, best: Tour)
    requires IsMatrix(n, mat) && NonNegative(mat) && Params(n, threadCount) && 0 <= rank < threadCount
    requires ChampionOk(n, mat, best)
    modifies best, best.cities
    ensures ChampionOk(n, mat, best) && best.cost <= old(best.cost)
    ensures forall h :: IsHamiltonian(n, h) && n >= 2 && InSlice(n, threadCount, rank, h[1]) ==>
              best.cost <= CycleCost(n, mat, h)
  {
    var lBest := INFINITY;
    var stack, seeded;
    ghost var vs;
    stack, seeded, vs := Seed(n, mat, threadCount, rank, best);
    ghost var seeds := vs;
    while !Empty(stack)
      invariant Mirrors(n, stack, vs) && AllGood(n, mat, vs) && Separate(stack) && Avoids(stack, best)
      invariant forall e :: e in stack ==> fresh(e.tour) && fresh(e.tour.cities)
      invariant ChampionOk(n, mat, best) && best.cost <= lBest && best.cost <= old(best.cost)
      invariant Tracked(n, mat, seeds, vs, best.cost)
      decreases Measure(n, vs)
    {
      MeasureNonNegative(n, vs);
      ghost var vsBefore, lBestBefore, bcBefore := vs, lBest, best.cost;
      ghost var stackBefore := stack;
      stack, vs, lBest := Step(n, mat, best, stack, vs, lBest);
      StepGood(n, mat, vsBefore, lBestBefore);
      StepMeasure(n, mat, vsBefore, lBestBefore);
      StepTracked(n, mat, seeds, vsBefore, lBestBefore, bcBefore, best.cost);
      forall e | e in stack ensures fresh(e.tour) && fresh(e.tour.cities) {
        if e in stackBefore[1..] {
          assert e in stackBefore;
        }
      }
    }
  }

  /** The whole program: the champion starts as a tour of cost INFINITY, and
      every rank's worker searches its block (one after another here).  For
      two or more cities the champion then ends up no dearer than any tour,
      and it is a tour of that cost as soon as some tour is below INFINITY. */
  method RunAll(n: int, mat: seq<int>, threadCount: int) returns (best: Tour)
    requires IsMatrix(n, mat) && NonNegative(mat) && threadCount >= 1
    ensures fresh(best) && ChampionOk(n, mat, best)
    ensures n >= 2 ==> forall h :: IsHamiltonian(n, h) ==> best.cost <= CycleCost(n, mat, h)
    ensures forall h :: IsHamiltonian(n, h) && n >= 2 && CycleCost(n, mat, h) < INFINITY ==>
              && best.count == n + 1 && best.cities[n] == 0
              && IsHamiltonian(n, best.cities[..n]) && best.cost == CycleCost(n, mat, best.cities[..n])
  {
    best := new Tour.Initialize(n);
    best.cost := INFINITY;
    var rank := 0;
    Ends(n, threadCount);
    while rank < threadCount
      invariant 0 <= rank <= threadCount
      invariant fresh(best) && fresh(best.cities)
      invariant ChampionOk(n, mat, best)
      invariant forall h :: IsHamiltonian(n, h) && n >= 2 && h[1] < FirstFinalCity(n, threadCount, rank) ==>
                  best.cost <= CycleCost(n, mat, h)
    {
      Search(n, mat, threadCount, rank, best);
      NextBlock(n, threadCount, rank);
      rank := rank + 1;
    }
  }
}
