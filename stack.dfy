/** The work stack of a worker: a LIFO of (partial tour, next city, edge cost)
    records.  The source keeps it as a singly linked list reached through a
    `stack_elt_t*`; here the list is a sequence whose element 0 is the top, and
    Push and Pop take the old list and give back the new one, as the source's
    `stack_elt_t**` in/out argument does. */
module WorkStacks {
  import opened Tours

  /** One record: try extending `tour` by `city`, an edge that costs `cost`. */
  datatype Entry = Entry(tour: Tour, city: int, cost: int)

  /** Empty: the stack has no records. */
  predicate Empty(stack: seq<Entry>)
    ensures Empty(stack) <==> |stack| == 0
  {
    stack == []
  }

  /** Push: a new top record whose tour is a duplicate of t, so that the
      caller may go on using t.  Nothing that existed before is changed. */
  method Push(n: int, t: Tour, city: int, cost: int, stack: seq<Entry>) returns (stack': seq<Entry>)
    requires 0 <= n <= t.cities.Length
    ensures |stack'| == |stack| + 1 && stack'[1..] == stack
    ensures stack'[0].city == city && stack'[0].cost == cost && stack'[0].tour != t
    ensures fresh(stack'[0].tour) && fresh(stack'[0].tour.cities)
    ensures stack'[0].tour.cities[..] == t.cities[..n]
    ensures stack'[0].tour.count == t.count && stack'[0].tour.cost == t.cost
  {
    var copy := new Tour.Dup(n, t);
    stack' := [Entry(copy, city, cost)] + stack;
  }

  /** Pop: hands out the top record and the rest of the stack. */
  method Pop(stack: seq<Entry>) returns (t: Tour, city: int, cost: int, rest: seq<Entry>)
    requires |stack| > 0
    ensures stack == [Entry(t, city, cost)] + rest
  {
    t, city, cost := stack[0].tour, stack[0].city, stack[0].cost;
    rest := stack[1..];
  }

  /** Pop after Push gives back a copy of the pushed tour (its n slots, count
      and cost), the city, the edge cost, and the stack as it was before. */
  method PushThenPop(n: int, t: Tour, city: int, cost: int, stack: seq<Entry>)
    returns (t': Tour, city': int, cost': int, stack': seq<Entry>)
    requires 0 <= n <= t.cities.Length
    ensures t' != t && t'.cities.Length == n && t'.cities[..] == t.cities[..n]
    ensures t'.count == t.count && t'.cost == t.cost
    ensures city' == city && cost' == cost && stack' == stack
  {
    var pushed := Push(n, t, city, cost, stack);
    t', city', cost', stack' := Pop(pushed);
  }

  // ---------------------------------------------------------------------
  // What a record stands for.  The search reasons about records through
  // these heap-free views; `Mirrors` ties the records on the heap to them.

  /** The visited cities and cost of a record's tour, its city and its edge cost. */
  datatype EntryView = EntryView(cities: seq<int>, tourCost: int, city: int, cost: int)

  ghost function View(e: Entry): EntryView
    reads e.tour, e.tour.cities
    requires e.tour.Valid()
  {
    EntryView(e.tour.Path(), e.tour.cost, e.city, e.cost)
  }

  /** The objects the records of a stack consist of. */
  ghost function Footprint(stack: seq<Entry>): set<object>
  {
    (set j | 0 <= j < |stack| :: stack[j].tour as object) +
    (set j | 0 <= j < |stack| :: stack[j].tour.cities as object)
  }

  lemma {:induction false} InFootprint(stack: seq<Entry>, e: Entry)
    requires e in stack
    ensures e.tour in Footprint(stack) && e.tour.cities in Footprint(stack)
  {
    var j :| 0 <= j < |stack| && stack[j] == e;
  }

  /** Every record has a valid tour with room for n cities, and views as vs says. */
  ghost predicate Mirrors(n: int, stack: seq<Entry>, vs: seq<EntryView>)
    reads Footprint(stack)
  {
    |stack| == |vs| &&
    forall j :: 0 <= j < |stack| ==>
      stack[j].tour.Valid() && stack[j].tour.cities.Length >= n && View(stack[j]) == vs[j]
  }

  /** No two records share a tour or a tour's array: no record below the
      top uses the top's tour, and the same holds further down. */
  ghost predicate Separate(stack: seq<Entry>)
    decreases |stack|
  {
    stack == [] || (Avoids(stack[1..], stack[0].tour) && Separate(stack[1..]))
  }

  lemma {:induction false} SeparateCons(e: Entry, stack: seq<Entry>)
    requires Separate(stack) && Avoids(stack, e.tour)
    ensures Separate([e] + stack)
  {
    assert ([e] + stack)[1..] == stack;
  }

  lemma {:induction false} SeparateSnoc(stack: seq<Entry>, e: Entry)
    requires Separate(stack) && Avoids(stack, e.tour)
    ensures Separate(stack + [e])
    decreases |stack|
  {
    var s := stack + [e];
    if stack != [] {
      assert s[1..] == stack[1..] + [e];
      assert Avoids(stack[1..], e.tour) by {
        forall j | 0 <= j < |stack| - 1 ensures stack[1..][j] == stack[j + 1] { }
      }
      SeparateSnoc(stack[1..], e);
      assert s[0] == stack[0];
      forall j | 0 <= j < |s| - 1 ensures s[1..][j].tour != s[0].tour && s[1..][j].tour.cities != s[0].tour.cities {
        if j < |stack| - 1 {
          assert s[1..][j] == stack[1..][j];
        } else {
          assert s[1..][j] == e;
        }
      }
    } else {
      assert s == [e] && s[1..] == [];
    }
  }

  /** No two records, wherever they sit, share a tour or a tour's array. */
  ghost predicate Disjoint(stack: seq<Entry>) {
    forall i, j :: 0 <= i < j < |stack| ==>
      stack[i].tour != stack[j].tour && stack[i].tour.cities != stack[j].tour.cities
  }

  /** Separate, read top down, says the same as Disjoint. */
  lemma {:induction false} SeparateDisjoint(stack: seq<Entry>)
    ensures Separate(stack) <==> Disjoint(stack)
    decreases |stack|
  {
    if stack != [] {
      var t := stack[1..];
      SeparateDisjoint(t);
      assert forall j :: 0 <= j < |t| ==> t[j] == stack[j + 1];
      if Disjoint(stack) {
        assert Disjoint(t) by {
          forall i, j | 0 <= i < j < |t|
            ensures t[i].tour != t[j].tour && t[i].tour.cities != t[j].tour.cities
          {
            assert t[i] == stack[i + 1] && t[j] == stack[j + 1];
          }
        }
        assert Avoids(t, stack[0].tour) by {
          forall j | 0 <= j < |t| ensures t[j].tour != stack[0].tour && t[j].tour.cities != stack[0].tour.cities {
            assert t[j] == stack[j + 1];
          }
        }
      }
      if Separate(stack) {
        forall i, j | 0 <= i < j < |stack|
          ensures stack[i].tour != stack[j].tour && stack[i].tour.cities != stack[j].tour.cities
        {
          assert stack[j] == t[j - 1];
          if i > 0 {
            assert stack[i] == t[i - 1];
          }
        }
      }
    }
  }

  /** No record uses the tour t or its array. */
  ghost predicate Avoids(stack: seq<Entry>, t: Tour) {
    forall j :: 0 <= j < |stack| ==> stack[j].tour != t && stack[j].tour.cities != t.cities
  }

  /** No record of a shares a tour or a tour's array with a record of b. */
  ghost predicate Apart(a: seq<Entry>, b: seq<Entry>) {
    forall i, j :: 0 <= i < |a| && 0 <= j < |b| ==>
      a[i].tour != b[j].tour && a[i].tour.cities != b[j].tour.cities
  }

  lemma {:induction false} MirrorsCons(n: int, e: Entry, stack: seq<Entry>, v: EntryView, vs: seq<EntryView>)
    requires Mirrors(n, stack, vs)
    requires e.tour.Valid() && e.tour.cities.Length >= n && View(e) == v
    ensures Mirrors(n, [e] + stack, [v] + vs)
  {
    var s, w := [e] + stack, [v] + vs;
    forall j | 0 <= j < |s|
      ensures s[j].tour.Valid() && s[j].tour.cities.Length >= n && View(s[j]) == w[j]
    {
      if j > 0 {
        assert s[j] == stack[j - 1] && w[j] == vs[j - 1];
      }
    }
  }

  lemma {:induction false} MirrorsTail(n: int, stack: seq<Entry>, vs: seq<EntryView>)
    requires Mirrors(n, stack, vs) && |stack| > 0
    ensures Mirrors(n, stack[1..], vs[1..])
  {
    forall j | 0 <= j < |stack| - 1
      ensures stack[1..][j].tour.Valid() && stack[1..][j].tour.cities.Length >= n
      ensures View(stack[1..][j]) == vs[1..][j]
    {
      assert stack[1..][j] == stack[j + 1];
    }
  }

  // ---------------------------------------------------------------------
  // The search space a record stands for.

  /** A record as the search keeps it: its tour is a partial tour with fewer
      than n cities whose cost is the cost of its path, and its city is a new
      city other than home, reached by the edge the record prices. */
  ghost predicate GoodView(n: int, mat: seq<int>, v: EntryView)
    requires |mat| == n * n
  {
    && IsPartialTour(n, v.cities) && |v.cities| < n
    && v.tourCost == PathCost(n, mat, v.cities)
    && 0 < v.city < n && v.city !in v.cities
    && v.cost == Cost(n, mat, v.cities[|v.cities| - 1], v.city)
  }

  ghost predicate AllGood(n: int, mat: seq<int>, vs: seq<EntryView>)
    requires |mat| == n * n
  {
    forall j :: 0 <= j < |vs| ==> GoodView(n, mat, vs[j])
  }

  /** The record v leads towards the tour h: h begins with v's cities followed by v's city. */
  ghost predicate Covers(v: EntryView, h: seq<int>) {
    |v.cities| < |h| && h[..|v.cities| + 1] == v.cities + [v.city]
  }

  /** Some record of vs leads towards h. */
  ghost predicate CoveredBy(vs: seq<EntryView>, h: seq<int>) {
    exists j :: 0 <= j < |vs| && Covers(vs[j], h)
  }

  lemma {:induction false} ConsAppend<T>(x: T, a: seq<T>, b: seq<T>)
    ensures [x] + (a + b) == ([x] + a) + b
  {
    assert forall i :: 0 <= i < |a| + |b| + 1 ==> ([x] + (a + b))[i] == (([x] + a) + b)[i];
  }

  lemma {:induction false} CoveredByAppend(a: seq<EntryView>, b: seq<EntryView>, h: seq<int>)
    ensures CoveredBy(a, h) ==> CoveredBy(a + b, h)
    ensures CoveredBy(b, h) ==> CoveredBy(a + b, h)
  {
    if CoveredBy(a, h) {
      var j :| 0 <= j < |a| && Covers(a[j], h);
      assert (a + b)[j] == a[j];
    }
    if CoveredBy(b, h) {
      var j :| 0 <= j < |b| && Covers(b[j], h);
      assert (a + b)[|a| + j] == b[j];
    }
  }

  lemma {:induction false} CoveredByTail(vs: seq<EntryView>, k: int, h: seq<int>)
    requires 0 <= k <= |vs| && CoveredBy(vs[k..], h)
    ensures CoveredBy(vs, h)
  {
    var j :| 0 <= j < |vs| - k && Covers(vs[k..][j], h);
    assert vs[k..][j] == vs[k + j];
  }

  /** A record of vs that leads towards h is either the top one or one of the rest. */
  lemma {:induction false} CoverCases(vs: seq<EntryView>, h: seq<int>)
    requires CoveredBy(vs, h)
    ensures Covers(vs[0], h) || CoveredBy(vs[1..], h)
  {
    var j :| 0 <= j < |vs| && Covers(vs[j], h);
    if j > 0 {
      assert vs[1..][j - 1] == vs[j];
    }
  }

  /** k copies of w added up. */
  ghost function Scale(k: nat, w: int): (r: int)
    ensures w >= 0 ==> r >= 0
  {
    if k == 0 then 0 else w + Scale(k - 1, w)
  }

  lemma {:induction false} ScaleMono(a: nat, b: nat, w: int)
    requires a <= b && w >= 0
    ensures Scale(a, w) <= Scale(b, w)
    decreases b
  {
    if a < b {
      ScaleMono(a, b - 1, w);
    }
  }

  /** Termination measure.  A record whose tour holds c cities weighs one more
      than the at most n-1 records its expansion can push, each with c+1 cities. */
  ghost function Weight(n: int, c: int): (w: int)
    requires n >= 1
    ensures w >= 1
    decreases n - c
  {
    if c >= n - 1 then 1 else 1 + Scale(n - 1, Weight(n, c + 1))
  }

  ghost function Measure(n: int, vs: seq<EntryView>): int
    requires n >= 1
  {
    if vs == [] then 0 else Weight(n, |vs[0].cities|) + Measure(n, vs[1..])
  }

  lemma {:induction false} MeasureCons(n: int, v: EntryView, vs: seq<EntryView>)
    requires n >= 1
    ensures Measure(n, [v] + vs) == Weight(n, |v.cities|) + Measure(n, vs)
  {
    assert ([v] + vs)[1..] == vs;
  }

  lemma {:induction false} MeasureNonNegative(n: int, vs: seq<EntryView>)
    requires n >= 1
    ensures Measure(n, vs) >= 0
  {
    if vs != [] {
      MeasureNonNegative(n, vs[1..]);
    }
  }

  /** What popping the top record leaves: a good top record with a valid tour
      of its own, and below it a stack with the same invariants, none of whose
      records shares the top record's tour; its measure is the top's weight less. */
  lemma {:induction false} PopFacts(n: int, mat: seq<int>, stack: seq<Entry>, vs: seq<EntryView>)
    requires IsMatrix(n, mat) && |stack| > 0
    requires Mirrors(n, stack, vs) && AllGood(n, mat, vs) && Separate(stack)
    ensures stack[0].tour.Valid() && stack[0].tour.cities.Length >= n && View(stack[0]) == vs[0]
    ensures GoodView(n, mat, vs[0])
    ensures Mirrors(n, stack[1..], vs[1..]) && AllGood(n, mat, vs[1..]) && Separate(stack[1..])
    ensures Avoids(stack[1..], stack[0].tour)
    ensures Measure(n, vs) == Weight(n, |vs[0].cities|) + Measure(n, vs[1..])
  {
    MirrorsTail(n, stack, vs);
    var rest, restVs := stack[1..], vs[1..];
    forall j | 0 <= j < |restVs| ensures GoodView(n, mat, restVs[j]) {
      assert restVs[j] == vs[j + 1];
    }
  }
}
