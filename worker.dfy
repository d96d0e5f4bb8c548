/** The worker of the dynamically balanced program (Search in the program
    with Terminated): the same depth-first search, with the number of records
    on its stack counted in my_count, and the termination protocol of
    Donation run before every pass of the search loop. */
module Worker {
  import opened Tours
  import opened WorkStacks
  import opened Champion
  import opened Seeding
  import opened Expansion
  import opened Search
  import opened Donation

  /** The expansion loop with the counter: my_count goes up with every push,
      so it stays the size of the stack. */
  method ExpandCounted(n: int, mat: seq<int>, best: Tour, t: Tour, city: int, ghost v0: EntryView,
                       lBest: int, rest: seq<Entry>, ghost restVs: seq<EntryView>, myCount: int)
    returns (stack': seq<Entry>, ghost vs': seq<EntryView>, myCount': int)
    requires n >= 1 && v0.city == city && myCount == |rest|
    requires Expanding(n, mat, t, v0, lBest, n - 1, rest, restVs, restVs, best)
    ensures Expanding(n, mat, t, v0, lBest, 0, stack', vs', restVs, best)
    ensures myCount' == |stack'|
    ensures forall e :: e in stack' ==> e in rest || (fresh(e.tour) && fresh(e.tour.cities))
  {
    stack', vs', myCount' := rest, restVs, myCount;
    var nbr := n - 1;
    while nbr > 0
      invariant 0 <= nbr <= n - 1
      invariant Expanding(n, mat, t, v0, lBest, nbr, stack', vs', restVs, best)
      invariant myCount' == |stack'|
      invariant forall e :: e in stack' ==> e in rest || (fresh(e.tour) && fresh(e.tour.cities))
    {
      var pushed;
      stack', vs', pushed := TryNeighbour(n, mat, best, t, city, v0, lBest, nbr, stack', vs', restVs);
      if pushed {
        myCount' := myCount' + 1;
      }
      nbr := nbr - 1;
    }
  }

  /** One pass of the search loop with the counter: Pop and my_count--, then
      Check_best_tour or the counted expansion.  As Step, and my_count is
      still the size of the stack afterwards. */
  method StepCounted(n: int, mat: seq<int>, best: Tour, stack: seq<Entry>, ghost vs: seq<EntryView>,
                     lBest: int, myCount: int)
    returns (stack': seq<Entry>, ghost vs': seq<EntryView>, lBest': int, myCount': int)
    requires IsMatrix(n, mat) && |stack| > 0 && myCount == |stack|
    requires Mirrors(n, stack, vs) && AllGood(n, mat, vs) && Separate(stack) && Avoids(stack, best)
    requires ChampionOk(n, mat, best)
    modifies stack[0].tour, stack[0].tour.cities, best, best.cities
    ensures vs' == Successors(n, mat, vs, lBest) && myCount' == |stack'|
    ensures Mirrors(n, stack', vs') && Separate(stack') && Avoids(stack', best) && ChampionOk(n, mat, best)
    ensures forall e :: e in stack' ==> e in stack[1..] || (fresh(e.tour) && fresh(e.tour.cities))
    ensures best.cost <= old(best.cost)
    ensures |vs[0].cities| + 1 == n ==>
              && IsHamiltonian(n, Extended(vs[0])) && best.cost <= CycleCost(n, mat, Extended(vs[0]))
              && lBest' == old(best.cost)
    ensures |vs[0].cities| + 1 != n ==> lBest' == lBest
  {
    ghost var v0, restVs := vs[0], vs[1..];
    var t, city, rest := PopExtend(n, mat, stack, vs, best);
    myCount' := myCount - 1;
    ExtendedFacts(n, mat, v0);
    if t.count == n {
      lBest' := Complete(n, mat, city, t, best, rest, restVs, Extended(v0));
      stack', vs' := rest, restVs;
      assert vs' == Successors(n, mat, vs, lBest) by {
        assert [] + restVs == restVs;
      }
    } else {
      lBest' := lBest;
      StartExpanding(n, mat, t, v0, lBest, rest, restVs, best);
      stack', vs', myCount' := ExpandCounted(n, mat, best, t, city, v0, lBest, rest, restVs, myCount');
      DoneExpanding(n, mat, t, v0, lBest, stack', vs', restVs, best);
      assert vs' == Successors(n, mat, vs, lBest);
    }
  }

  /** Records handed to other workers are not touched by a pass of the
      search loop: the successors of vs + d are those of vs, then d. */
  lemma {:induction false} SuccessorsAppend(n: int, mat: seq<int>, vs: seq<EntryView>, d: seq<EntryView>, lBest: int)
    requires |mat| == n * n && |vs| > 0 && 0 <= vs[0].city < n
    ensures (vs + d)[0] == vs[0]
    ensures Successors(n, mat, vs + d, lBest) == Successors(n, mat, vs, lBest) + d
  {
    var cs := if |vs[0].cities| + 1 == n then [] else Children(n, mat, vs[0], lBest, 1);
    assert (vs + d)[1..] == vs[1..] + d;
    assert cs + (vs[1..] + d) == (cs + vs[1..]) + d;
  }

  /** The state the search loop of the balanced program keeps: the records
      s view as views and are as the search keeps them, d are the views of
      the records handed out so far, and between them they lead to every tour
      the records vs0 led to that is cheaper than the champion. */
  ghost predicate Holding(n: int, mat: seq<int>, best: Tour, s: seq<Entry>, views: seq<EntryView>,
                          d: seq<EntryView>, vs0: seq<EntryView>)
    reads best, Footprint(s)
    requires IsMatrix(n, mat)
  {
    && Mirrors(n, s, views) && AllGood(n, mat, views) && Separate(s) && Avoids(s, best)
    && AllGood(n, mat, d) && Tracked(n, mat, vs0, views + d, best.cost)
  }

  /** The records rs staged for another worker are the ones the views d
      handed out stand for: they mirror d and share no tour with the
      worker's own records s or with the champion.  While nothing has been
      handed out there is nothing to say. */
  ghost predicate Staged(n: int, rs: seq<Entry>, s: seq<Entry>, d: seq<EntryView>, best: Tour)
    reads Footprint(rs)
  {
    d != [] ==> rs != [] && Mirrors(n, rs, d) && Apart(s, rs) && Avoids(rs, best)
  }

  /** What the outcome of Terminated says about the shared state: a worker
      that goes on is not counted as waiting, one that quits is the last to
      stop, and one that parks leaves at least one worker running. */
  ghost predicate Status(coord: Coordinator, outcome: Outcome)
    reads coord
  {
    && coord.Valid()
    && (outcome == KeepWorking ==> coord.threadsInCondWait < coord.threadCount)
    && (outcome == Quit ==> coord.threadsInCondWait == coord.threadCount)
    && (outcome == Park ==> 1 <= coord.threadsInCondWait < coord.threadCount)
  }

  /** A donation keeps what the search loop keeps: the kept half holds as
      the whole did, the donated half is staged apart from it, lighter, and
      nothing that the stack led to is lost between the two halves. */
  lemma {:induction false} DonationKeeps(n: int, mat: seq<int>, best: Tour, stack: seq<Entry>,
                                         vs: seq<EntryView>, d: seq<EntryView>, vs0: seq<EntryView>)
    requires IsMatrix(n, mat) && |stack| >= 2 && d == []
    requires Holding(n, mat, best, stack, vs, d, vs0)
    ensures Holding(n, mat, best, Evens(stack), Evens(vs), d + Odds(vs), vs0)
    ensures Staged(n, Odds(stack), Evens(stack), d + Odds(vs), best)
    ensures Measure(n, Evens(vs)) <= Measure(n, vs) && Measure(n, d + Odds(vs)) < Measure(n, vs)
    ensures forall e :: e in Evens(stack) ==> e in stack
  {
    SplitMirrors(n, stack, vs);
    SplitGood(n, mat, vs);
    SplitSeparate(stack, best);
    SplitApart(stack);
    assert d + Odds(vs) == Odds(vs);
    AllGoodAppend(n, mat, d, Odds(vs));
    SplitMeasure(n, vs);
    forall h | IsHamiltonian(n, h) && CoveredBy(vs0, h)
      ensures CoveredBy(Evens(vs) + (d + Odds(vs)), h) || best.cost <= CycleCost(n, mat, h)
    {
      if CoveredBy(vs + d, h) {
        SplitCovers(vs, d, h);
      }
    }
    forall e | e in Evens(stack) ensures e in stack {
      SplitMembers(stack, e);
    }
  }

  /** Terminated as the search loop calls it, with the records given as
      views.  A donation keeps the records at even positions, stages those at
      odd positions, and moves their views to d, the views the worker has
      handed out; otherwise the records, d and the staging stay as they are.
      Nothing that the records and d led to is lost, and the worker goes on
      exactly when it has records left. */
  method Share(n: int, mat: seq<int>, coord: Coordinator, best: Tour, stack: seq<Entry>, myCount: int,
               ghost vs: seq<EntryView>, ghost d: seq<EntryView>, ghost vs0: seq<EntryView>)
    returns (outcome: Outcome, stack': seq<Entry>, myCount': int, ghost vs': seq<EntryView>, ghost d': seq<EntryView>)
    requires IsMatrix(n, mat) && myCount == |stack|
    requires coord.Valid() && coord.threadsInCondWait < coord.threadCount
    requires Holding(n, mat, best, stack, vs, d, vs0) && Staged(n, coord.newStack, stack, d, best)
    modifies coord
    ensures Status(coord, outcome) && myCount' == |stack'|
    ensures outcome == KeepWorking <==> |stack'| > 0
    ensures outcome != KeepWorking ==> vs' == []
    ensures old(coord.CanDonate(myCount)) ==>
              && stack' == Evens(stack) && vs' == Evens(vs) && d' == d + Odds(vs)
              && coord.newStack == Odds(stack) && old(coord.newStack) == []
              && d == [] && Measure(n, d') < Measure(n, vs)
    ensures !old(coord.CanDonate(myCount)) ==>
              stack' == stack && vs' == vs && d' == d && coord.newStack == old(coord.newStack)
    ensures Holding(n, mat, best, stack', vs', d', vs0) && Staged(n, coord.newStack, stack', d', best)
    ensures outcome == KeepWorking ==> coord.threadsInCondWait == old(coord.threadsInCondWait)
    ensures forall e :: e in stack' ==> e in stack
    ensures Measure(n, vs') <= Measure(n, vs)
  {
    ghost var donate := coord.CanDonate(myCount);
    outcome, stack', myCount' := coord.Terminated(stack, myCount);
    if donate {
      vs', d' := Evens(vs), d + Odds(vs);
      DonationKeeps(n, mat, best, stack, vs, d, vs0);
    } else {
      vs', d' := vs, d;
    }
  }

  /** A pass of the search loop loses no tour, also when some records were
      handed to other workers earlier: what vs + d led to, the successors of
      vs together with d lead to, unless it costs at least bc. */
  lemma {:induction false} PassTracked(n: int, mat: seq<int>, vs0: seq<EntryView>, vs: seq<EntryView>,
                                       d: seq<EntryView>, lBest: int, bcOld: int, bc: int)
    requires IsMatrix(n, mat) && NonNegative(mat)
    requires |vs| > 0 && AllGood(n, mat, vs) && AllGood(n, mat, d) && bc <= lBest && bc <= bcOld
    requires |vs[0].cities| + 1 == n ==>
               IsHamiltonian(n, Extended(vs[0])) && bc <= CycleCost(n, mat, Extended(vs[0]))
    requires Tracked(n, mat, vs0, vs + d, bcOld)
    ensures AllGood(n, mat, Successors(n, mat, vs, lBest))
    ensures Measure(n, Successors(n, mat, vs, lBest)) < Measure(n, vs)
    ensures Tracked(n, mat, vs0, Successors(n, mat, vs, lBest) + d, bc)
  {
    StepGood(n, mat, vs, lBest);
    StepMeasure(n, mat, vs, lBest);
    SuccessorsAppend(n, mat, vs, d, lBest);
    AllGoodAppend(n, mat, vs, d);
    StepTracked(n, mat, vs0, vs + d, lBest, bcOld, bc);
  }

  /** The body of the search loop of the balanced program: the records left
      weigh less than before, and nothing they, or the records handed out,
      led to is lost. */
  method Advance(n: int, mat: seq<int>, best: Tour, stack: seq<Entry>, myCount: int, lBest: int,
                 ghost vs: seq<EntryView>, ghost d: seq<EntryView>, ghost vs0: seq<EntryView>)
    returns (stack': seq<Entry>, myCount': int, lBest': int, ghost vs': seq<EntryView>)
    requires IsMatrix(n, mat) && NonNegative(mat) && |stack| > 0 && myCount == |stack|
    requires Holding(n, mat, best, stack, vs, d, vs0)
    requires ChampionOk(n, mat, best) && best.cost <= lBest
    modifies best, best.cities, stack[0].tour, stack[0].tour.cities
    ensures myCount' == |stack'| && Holding(n, mat, best, stack', vs', d, vs0)
    ensures forall e :: e in stack' ==> e in stack || (fresh(e.tour) && fresh(e.tour.cities))
    ensures ChampionOk(n, mat, best) && best.cost <= lBest' && best.cost <= old(best.cost)
    ensures Measure(n, vs') < Measure(n, vs)
  {
    ghost var bcOld := best.cost;
    stack', vs', lBest', myCount' := StepCounted(n, mat, best, stack, vs, lBest, myCount);
    PassTracked(n, mat, vs0, vs, d, lBest, bcOld, best.cost);
    forall e | e in stack' ensures e in stack || (fresh(e.tour) && fresh(e.tour.cities)) {
      if e in stack[1..] {
        assert e in stack;
      }
    }
  }

  /** A pass of the search loop followed by Terminated as the loop's
      condition calls it. */
  method Pass(n: int, mat: seq<int>, coord: Coordinator, best: Tour, stack: seq<Entry>, myCount: int,
              lBest: int, ghost vs: seq<EntryView>, ghost d: seq<EntryView>, ghost vs0: seq<EntryView>)
    returns (outcome: Outcome, stack': seq<Entry>, myCount': int, lBest': int,
             ghost vs': seq<EntryView>, ghost d': seq<EntryView>)
    requires IsMatrix(n, mat) && NonNegative(mat) && |stack| > 0 && myCount == |stack|
    requires coord.Valid() && coord.threadsInCondWait < coord.threadCount
    requires Holding(n, mat, best, stack, vs, d, vs0) && Staged(n, coord.newStack, stack, d, best)
    requires ChampionOk(n, mat, best) && best.cost <= lBest
    modifies coord, best, best.cities, stack[0].tour, stack[0].tour.cities
    ensures Status(coord, outcome) && myCount' == |stack'|
    ensures outcome == KeepWorking <==> |stack'| > 0
    ensures outcome != KeepWorking ==> vs' == []
    ensures d' == d ==> coord.newStack == old(coord.newStack)
    ensures d' != d ==> d == [] && old(coord.newStack) == [] && d' != []
    ensures d' != d ==> old(coord.threadsInCondWait) > 0 && Measure(n, d') < Measure(n, vs)
    ensures outcome == KeepWorking ==> coord.threadsInCondWait == old(coord.threadsInCondWait)
    ensures Holding(n, mat, best, stack', vs', d', vs0) && Staged(n, coord.newStack, stack', d', best)
    ensures forall e :: e in stack' ==> e in stack || (fresh(e.tour) && fresh(e.tour.cities))
    ensures ChampionOk(n, mat, best) && best.cost <= lBest' && best.cost <= old(best.cost)
    ensures Measure(n, vs') < Measure(n, vs)
  {
    var s, count;
    ghost var views;
    ghost var rs := coord.newStack;
    s, count, lBest', views := Advance(n, mat, best, stack, myCount, lBest, vs, d, vs0);
    if d != [] {
      forall i, j | 0 <= i < |s| && 0 <= j < |rs|
        ensures s[i].tour != rs[j].tour && s[i].tour.cities != rs[j].tour.cities
      {
        if s[i] in stack {
          var k :| 0 <= k < |stack| && stack[k] == s[i];
        }
      }
    }
    outcome, stack', myCount', vs', d' := Share(n, mat, coord, best, s, count, views, d, vs0);
  }

  /** Sequence bookkeeping for the end of Work, kept as a lemma because the
      same fact stated inline there is expensive for the solver. */
  lemma {:induction false} NothingLeft(views: seq<EntryView>, d: seq<EntryView>)
    requires views == []
    ensures views + d == d
  {
  }

  /** The search loop of the balanced program, `while (!Terminated(...))`:
      passes of the loop until Terminated says to quit or to wait.  Every tour
      that the records vs0 led to is then led to by one of the records d'
      stands for, or costs no less than the champion.  d' is empty, and the
      staging untouched, unless the worker donated; then the records it
      staged are exactly the ones d' stands for. */
  method Work(n: int, mat: seq<int>, coord: Coordinator, best: Tour, stack: seq<Entry>, myCount: int,
              lBest: int, ghost vs: seq<EntryView>, ghost vs0: seq<EntryView>)
    returns (outcome: Outcome, lBest': int, ghost d': seq<EntryView>)
    requires IsMatrix(n, mat) && NonNegative(mat) && myCount == |stack|
    requires coord.Valid() && coord.threadsInCondWait < coord.threadCount
    requires Holding(n, mat, best, stack, vs, [], vs0)
    requires ChampionOk(n, mat, best) && best.cost <= lBest
    modifies coord, best, best.cities, Footprint(stack)
    ensures outcome != KeepWorking && Status(coord, outcome)
    ensures ChampionOk(n, mat, best) && best.cost <= old(best.cost)
    ensures AllGood(n, mat, d') && Tracked(n, mat, vs0, d', best.cost)
    ensures d' == [] ==> coord.newStack == old(coord.newStack)
    ensures d' != [] ==> old(coord.newStack) == [] && coord.newStack != [] && Mirrors(n, coord.newStack, d')
    ensures d' != [] ==> old(coord.threadsInCondWait) > 0 && Measure(n, d') < Measure(n, vs)
  {
    var s, count;
    ghost var views;
    outcome, s, count, views, d' := Share(n, mat, coord, best, stack, myCount, vs, [], vs0);
    lBest' := lBest;
    while outcome == KeepWorking
      invariant Status(coord, outcome) && count == |s|
      invariant outcome == KeepWorking <==> |s| > 0
      invariant outcome != KeepWorking ==> views == []
      invariant Holding(n, mat, best, s, views, d', vs0) && Staged(n, coord.newStack, s, d', best)
      invariant d' == [] ==> coord.newStack == old(coord.newStack)
      invariant d' != [] ==> old(coord.newStack) == []
      invariant d' != [] ==> old(coord.threadsInCondWait) > 0 && Measure(n, d') < Measure(n, vs)
      invariant outcome == KeepWorking ==> coord.threadsInCondWait == old(coord.threadsInCondWait)
      invariant Measure(n, views) <= Measure(n, vs)
      invariant forall e :: e in s ==> e in stack || (fresh(e.tour) && fresh(e.tour.cities))
      invariant ChampionOk(n, mat, best) && best.cost <= lBest' && best.cost <= old(best.cost)
      decreases Measure(n, views)
    {
      MeasureNonNegative(n, views);
      if s[0] in stack {
        InFootprint(stack, s[0]);
      }
      outcome, s, count, lBest', views, d' := Pass(n, mat, coord, best, s, count, lBest', views, d', vs0);
    }
    NothingLeft(views, d');
  }

  /** Search of the balanced program for the worker of this rank: seed the
      rank's block with my_count counting the records, then the search loop.
      When the worker stops (to quit or to wait), every tour whose first move
      lies in its block is led to by a record it staged for another worker,
      or costs no less than the champion. */
  method BalancedSearch(n: int, mat: seq<int>, coord: Coordinator, rank: int, best: Tour)
    returns (outcome: Outcome, ghost donated: seq<EntryView>)
    requires IsMatrix(n, mat) && NonNegative(mat) && Params(n, coord.threadCount) && 0 <= rank < coord.threadCount
    requires coord.Valid() && coord.threadsInCondWait < coord.threadCount
    requires ChampionOk(n, mat, best)
    modifies coord, best, best.cities
    ensures outcome != KeepWorking && Status(coord, outcome)
    ensures ChampionOk(n, mat, best) && best.cost <= old(best.cost)
    ensures forall h :: IsHamiltonian(n, h) && n >= 2 && InSlice(n, coord.threadCount, rank, h[1]) ==>
              CoveredBy(donated, h) || best.cost <= CycleCost(n, mat, h)
    ensures AllGood(n, mat, donated)
    ensures donated == [] ==> coord.newStack == old(coord.newStack)
    ensures donated != [] ==>
              old(coord.newStack) == [] && coord.newStack != [] && Mirrors(n, coord.newStack, donated)
    ensures donated != [] ==>
              old(coord.threadsInCondWait) > 0
              && Measure(n, donated) < Measure(n, BlockSeeds(n, mat, coord.threadCount, rank))
  {
    var lBest := INFINITY;
    var stack, myCount;
    ghost var seeds;
    stack, myCount, seeds := Seed(n, mat, coord.threadCount, rank, best);
    assert seeds + [] == seeds;
    forall o | o in Footprint(stack) ensures fresh(o) {
      var j :| 0 <= j < |stack| && (o == stack[j].tour || o == stack[j].tour.cities);
      assert stack[j] in stack;
    }
    var lBest';
    outcome, lBest', donated := Work(n, mat, coord, best, stack, myCount, lBest, seeds, seeds);
  }

  /** A parked worker woken up: Wake, and when it adopted the staged records,
      the body of the search loop on them and then the search loop.  The
      source pops the adopted stack straight away, so it relies on a worker
      being woken only after a donation; that is the precondition here.  When
      the worker stops again, every tour the adopted records led to is led to
      by a record it staged in turn, or costs no less than the champion. */
  method Rejoin(n: int, mat: seq<int>, coord: Coordinator, best: Tour, myStack: seq<Entry>, myCount: int,
                lBest: int, ghost staged: seq<EntryView>)
    returns (outcome: Outcome, lBest': int, ghost donated: seq<EntryView>)
    requires IsMatrix(n, mat) && NonNegative(mat)
    requires coord.Valid() && coord.threadsInCondWait >= 1
    requires coord.threadsInCondWait < coord.threadCount ==> |coord.newStack| > 0
    requires Holding(n, mat, best, coord.newStack, staged, [], staged)
    requires ChampionOk(n, mat, best) && best.cost <= lBest
    modifies coord, best, best.cities, Footprint(coord.newStack)
    ensures outcome != KeepWorking && Status(coord, outcome)
    ensures ChampionOk(n, mat, best) && best.cost <= old(best.cost)
    ensures old(coord.threadsInCondWait) < coord.threadCount ==> Tracked(n, mat, staged, donated, best.cost)
    ensures old(coord.threadsInCondWait) == coord.threadCount ==> outcome == Quit && donated == []
    ensures AllGood(n, mat, donated)
    ensures donated == [] && old(coord.threadsInCondWait) < coord.threadCount ==> coord.newStack == []
    ensures donated != [] ==> coord.newStack != [] && Mirrors(n, coord.newStack, donated)
    ensures donated != [] ==> old(coord.threadsInCondWait) > 1 && Measure(n, donated) < Measure(n, staged)
  {
    var quit, stack, count := coord.Wake(myStack, myCount);
    lBest', donated := lBest, [];
    if quit {
      outcome := Quit;
    } else {
      ghost var views;
      stack, count, lBest', views := Advance(n, mat, best, stack, count, lBest, staged, [], staged);
      forall o | o in Footprint(stack) ensures o in old(Footprint(coord.newStack)) || fresh(o) {
        var j :| 0 <= j < |stack| && (o == stack[j].tour || o == stack[j].tour.cities);
        assert stack[j] in stack;
        if stack[j] in old(coord.newStack) {
          InFootprint(old(coord.newStack), stack[j]);
        }
      }
      outcome, lBest', donated := Work(n, mat, coord, best, stack, count, lBest', views, staged);
    }
  }
}
