/** Work sharing in the dynamically balanced program: a worker with at least
    two records splits its stack with a worker that is waiting for work, and
    a worker whose stack runs dry either waits for a donation or, when every
    other worker waits too, quits together with them. */
module Donation {
  import opened Tours
  import opened WorkStacks

  // ---------------------------------------------------------------------
  // Split_stack on values: the records at even positions stay, those at odd
  // positions are donated.

  /** The elements at positions 0, 2, 4, ... in their order. */
  function Evens<T>(s: seq<T>): seq<T> {
    seq((|s| + 1) / 2, i requires 0 <= i < (|s| + 1) / 2 => s[2 * i])
  }

  /** The elements at positions 1, 3, 5, ... in their order. */
  function Odds<T>(s: seq<T>): seq<T> {
    seq(|s| / 2, i requires 0 <= i < |s| / 2 => s[2 * i + 1])
  }

  /** An independent description of the inverse of the split: the elements
      of a and b taken alternately, a first. */
  function Interleave<T>(a: seq<T>, b: seq<T>): seq<T>
    decreases |a| + |b|
  {
    if a == [] then b else [a[0]] + Interleave(b, a[1..])
  }

  /** The split of a non-empty list is its head followed by the split of its
      tail with the roles of the two halves exchanged. */
  lemma {:induction false} SplitUnfold<T>(s: seq<T>)
    requires |s| > 0
    ensures Evens(s) == [s[0]] + Odds(s[1..])
    ensures Odds(s) == Evens(s[1..])
  {
    var t := s[1..];
    assert forall i :: 0 <= i < |t| ==> t[i] == s[i + 1];
    assert |Evens(s)| == 1 + |Odds(t)|;
    forall i | 0 <= i < |Evens(s)| ensures Evens(s)[i] == ([s[0]] + Odds(t))[i] {
      if i > 0 {
        assert Odds(t)[i - 1] == t[2 * (i - 1) + 1];
      }
    }
    forall i | 0 <= i < |Odds(s)| ensures Odds(s)[i] == Evens(t)[i] {
      assert Evens(t)[i] == t[2 * i];
    }
  }

  /** Merging the two halves back alternately gives the list that was split:
      nothing is lost, duplicated or reordered. */
  lemma {:induction false} SplitRoundTrip<T>(s: seq<T>)
    ensures Interleave(Evens(s), Odds(s)) == s
    decreases |s|
  {
    if s == [] {
      assert Evens(s) == [];
    } else {
      SplitUnfold(s);
      var t := s[1..];
      SplitRoundTrip(t);
      assert Evens(s)[0] == s[0] && Evens(s)[1..] == Odds(t);
      assert Interleave(Evens(s), Odds(s)) == [s[0]] + Interleave(Odds(s), Odds(t));
      assert [s[0]] + t == s;
    }
  }

  /** The two halves partition the list: together they hold its elements,
      each as often as the list does. */
  lemma {:induction false} SplitPartition<T>(s: seq<T>)
    ensures multiset(Evens(s)) + multiset(Odds(s)) == multiset(s)
    decreases |s|
  {
    if s == [] {
      assert Evens(s) == [] && Odds(s) == [];
    } else {
      SplitUnfold(s);
      var t := s[1..];
      SplitPartition(t);
      assert [s[0]] + t == s;
      assert multiset(s) == multiset([s[0]]) + multiset(t);
    }
  }

  /** Appending one element to the list being split appends it to the kept
      half when it lands on an even position, to the donated half otherwise. */
  lemma {:induction false} SplitSnoc<T>(s: seq<T>, x: T)
    ensures Evens(s + [x]) == if |s| % 2 == 0 then Evens(s) + [x] else Evens(s)
    ensures Odds(s + [x]) == if |s| % 2 == 1 then Odds(s) + [x] else Odds(s)
  {
    var s' := s + [x];
    assert forall i :: 0 <= i < |s| ==> s'[i] == s[i];
    if |s| % 2 == 0 {
      forall i | 0 <= i < |Evens(s')| ensures Evens(s')[i] == (Evens(s) + [x])[i] {
        if i < |Evens(s)| {
          assert Evens(s')[i] == s[2 * i];
        }
      }
      forall i | 0 <= i < |Odds(s')| ensures Odds(s')[i] == Odds(s)[i] {
        assert Odds(s')[i] == s[2 * i + 1];
      }
    } else {
      forall i | 0 <= i < |Evens(s')| ensures Evens(s')[i] == Evens(s)[i] {
        assert Evens(s')[i] == s[2 * i];
      }
      forall i | 0 <= i < |Odds(s')| ensures Odds(s')[i] == (Odds(s) + [x])[i] {
        if i < |Odds(s)| {
          assert Odds(s')[i] == s[2 * i + 1];
        }
      }
    }
  }

  /** SplitSnoc on the prefixes of one list. */
  lemma {:induction false} SplitPrefix<T>(s: seq<T>, k: int)
    requires 0 <= k < |s|
    ensures Evens(s[..k + 1]) == if k % 2 == 0 then Evens(s[..k]) + [s[k]] else Evens(s[..k])
    ensures Odds(s[..k + 1]) == if k % 2 == 1 then Odds(s[..k]) + [s[k]] else Odds(s[..k])
  {
    assert s[..k + 1] == s[..k] + [s[k]];
    SplitSnoc(s[..k], s[k]);
  }

  /** Each half holds only elements of the list. */
  lemma {:induction false} SplitMembers<T>(s: seq<T>, x: T)
    ensures x in Evens(s) ==> x in s
    ensures x in Odds(s) ==> x in s
  {
    if x in Evens(s) {
      var i :| 0 <= i < |Evens(s)| && Evens(s)[i] == x;
      assert s[2 * i] == x;
    }
    if x in Odds(s) {
      var i :| 0 <= i < |Odds(s)| && Odds(s)[i] == x;
      assert s[2 * i + 1] == x;
    }
  }

  // ---------------------------------------------------------------------
  // The split keeps the invariants of the search on both halves.

  /** Both halves of a stack view as the same halves of its views. */
  lemma {:induction false} SplitMirrors(n: int, stack: seq<Entry>, vs: seq<EntryView>)
    requires Mirrors(n, stack, vs)
    ensures Mirrors(n, Evens(stack), Evens(vs)) && Mirrors(n, Odds(stack), Odds(vs))
  {
    var e, o := Evens(stack), Odds(stack);
    forall j | 0 <= j < |e| ensures e[j].tour.Valid() && e[j].tour.cities.Length >= n && View(e[j]) == Evens(vs)[j] {
      assert e[j] == stack[2 * j] && Evens(vs)[j] == vs[2 * j];
    }
    forall j | 0 <= j < |o| ensures o[j].tour.Valid() && o[j].tour.cities.Length >= n && View(o[j]) == Odds(vs)[j] {
      assert o[j] == stack[2 * j + 1] && Odds(vs)[j] == vs[2 * j + 1];
    }
  }

  /** Both halves of a list of good records are good. */
  lemma {:induction false} SplitGood(n: int, mat: seq<int>, vs: seq<EntryView>)
    requires |mat| == n * n && AllGood(n, mat, vs)
    ensures AllGood(n, mat, Evens(vs)) && AllGood(n, mat, Odds(vs))
  {
    forall j | 0 <= j < |Evens(vs)| ensures GoodView(n, mat, Evens(vs)[j]) {
      assert Evens(vs)[j] == vs[2 * j];
    }
    forall j | 0 <= j < |Odds(vs)| ensures GoodView(n, mat, Odds(vs)[j]) {
      assert Odds(vs)[j] == vs[2 * j + 1];
    }
  }

  /** The records of either half share no tour with each other or with a
      tour no record of the whole stack uses. */
  lemma {:induction false} SplitSeparate(stack: seq<Entry>, t: Tour)
    requires Separate(stack) && Avoids(stack, t)
    ensures Separate(Evens(stack)) && Separate(Odds(stack))
    ensures Avoids(Evens(stack), t) && Avoids(Odds(stack), t)
  {
    SeparateDisjoint(stack);
    var e, o := Evens(stack), Odds(stack);
    forall i, j | 0 <= i < j < |e|
      ensures e[i].tour != e[j].tour && e[i].tour.cities != e[j].tour.cities
    {
      assert e[i] == stack[2 * i] && e[j] == stack[2 * j];
    }
    forall i, j | 0 <= i < j < |o|
      ensures o[i].tour != o[j].tour && o[i].tour.cities != o[j].tour.cities
    {
      assert o[i] == stack[2 * i + 1] && o[j] == stack[2 * j + 1];
    }
    SeparateDisjoint(e);
    SeparateDisjoint(o);
    forall j | 0 <= j < |e| ensures e[j].tour != t && e[j].tour.cities != t.cities {
      assert e[j] == stack[2 * j];
    }
    forall j | 0 <= j < |o| ensures o[j].tour != t && o[j].tour.cities != t.cities {
      assert o[j] == stack[2 * j + 1];
    }
  }

  /** The records kept and the records donated share no tour. */
  lemma {:induction false} SplitApart(stack: seq<Entry>)
    requires Separate(stack)
    ensures Apart(Evens(stack), Odds(stack))
  {
    SeparateDisjoint(stack);
    var e, o := Evens(stack), Odds(stack);
    forall i, j | 0 <= i < |e| && 0 <= j < |o|
      ensures e[i].tour != o[j].tour && e[i].tour.cities != o[j].tour.cities
    {
      assert e[i] == stack[2 * i] && o[j] == stack[2 * j + 1];
    }
  }

  /** The two halves weigh as much as the whole: a split never makes the
      work left over grow, and the kept half never weighs more than the whole;
      the donated half of a non-empty stack weighs strictly less than it. */
  lemma {:induction false} SplitMeasure(n: int, vs: seq<EntryView>)
    requires n >= 1
    ensures Measure(n, Evens(vs)) + Measure(n, Odds(vs)) == Measure(n, vs)
    ensures Measure(n, Evens(vs)) <= Measure(n, vs)
    ensures vs != [] ==> Measure(n, Odds(vs)) < Measure(n, vs)
    decreases |vs|
  {
    if vs != [] {
      SplitUnfold(vs);
      SplitMeasure(n, vs[1..]);
      MeasureCons(n, vs[0], Odds(vs[1..]));
      MeasureNonNegative(n, Odds(vs[1..]));
    } else {
      assert Evens(vs) == [] && Odds(vs) == [];
    }
    MeasureNonNegative(n, Odds(vs));
  }

  /** A tour some record of vs or of d leads to is, after vs is split and its
      odd half added to d, led to by a record of the kept half or of the
      enlarged d. */
  lemma {:induction false} SplitCovers(vs: seq<EntryView>, d: seq<EntryView>, h: seq<int>)
    requires CoveredBy(vs + d, h)
    ensures CoveredBy(Evens(vs) + (d + Odds(vs)), h)
  {
    var j :| 0 <= j < |vs + d| && Covers((vs + d)[j], h);
    var e, d' := Evens(vs), d + Odds(vs);
    if j < |vs| {
      assert (vs + d)[j] == vs[j];
      if j % 2 == 0 {
        assert e[j / 2] == vs[j];
        assert (e + d')[j / 2] == e[j / 2];
      } else {
        assert Odds(vs)[j / 2] == vs[j];
        assert d'[|d| + j / 2] == Odds(vs)[j / 2];
        assert (e + d')[|e| + |d| + j / 2] == d'[|d| + j / 2];
      }
    } else {
      assert (vs + d)[j] == d[j - |vs|];
      assert d'[j - |vs|] == d[j - |vs|];
      assert (e + d')[|e| + j - |vs|] == d'[j - |vs|];
    }
  }

  // ---------------------------------------------------------------------
  // The shared termination state.

  /** What Terminated tells the calling worker: go on searching its stack,
      quit, or wait for a donation (the source's blocking wait, whose
      continuation is Coordinator.Wake). */
  datatype Outcome = KeepWorking | Quit | Park

  /** The globals threads_in_cond_wait, new_stack and new_stack_size. The
      staged stack is a sequence; the empty sequence stands for NULL. */
  class Coordinator {
    const threadCount: int
    var threadsInCondWait: int
    var newStack: seq<Entry>
    var newStackSize: int

    ghost predicate Valid()
      reads this
    {
      threadCount >= 1 && 0 <= threadsInCondWait <= threadCount && newStackSize == |newStack|
    }

    /** The globals' initial values: nobody waits, nothing staged. */
    constructor (threadCount: int)
      requires threadCount >= 1
      ensures this.threadCount == threadCount && threadsInCondWait == 0
      ensures newStack == [] && newStackSize == 0 && Valid()
    {
      this.threadCount := threadCount;
      threadsInCondWait := 0;
      newStack := [];
      newStackSize := 0;
    }

    /** The guard of the donation branch of Terminated: the caller has at
        least two records, somebody waits, and no donation is staged. */
    predicate CanDonate(myStackSize: int)
      reads this
    {
      myStackSize >= 2 && threadsInCondWait > 0 && newStack == []
    }

    /** Split_stack: the caller keeps the records at even positions and the
        ones at odd positions are staged for a waiting worker, each half in
        its old order; both sizes are recorded. */
    method SplitStack(myStack: seq<Entry>) returns (kept: seq<Entry>, mySize: int)
      requires |myStack| >= 2
      modifies this
      ensures kept == Evens(myStack) && newStack == Odds(myStack)
      ensures mySize == |kept| == (|myStack| + 1) / 2
      ensures newStackSize == |newStack| == |myStack| / 2
      ensures threadsInCondWait == old(threadsInCondWait)
    {
      SplitPrefix(myStack, 0);
      SplitPrefix(myStack, 1);
      kept, mySize := [myStack[0]], 1;
      var staged, newSize := [myStack[1]], 1;
      var curr := 2;
      while curr < |myStack|
        invariant 2 <= curr <= |myStack|
        invariant curr % 2 == 0 || curr == |myStack|
        invariant kept == Evens(myStack[..curr]) && staged == Odds(myStack[..curr])
        invariant mySize == |kept| && newSize == |staged|
        invariant threadsInCondWait == old(threadsInCondWait)
      {
        SplitPrefix(myStack, curr);
        kept, mySize := kept + [myStack[curr]], mySize + 1;
        curr := curr + 1;
        if curr < |myStack| {
          SplitPrefix(myStack, curr);
          staged, newSize := staged + [myStack[curr]], newSize + 1;
          curr := curr + 1;
        }
      }
      assert myStack[..curr] == myStack;
      newStack, newStackSize := staged, newSize;
    }

    /** The non-blocking part of Terminated, for a worker that is not waiting.
        With a donation possible it splits its stack and goes on; with records
        left it goes on; with none left it quits when it is the last one
        working, and otherwise joins the waiting workers. */
    method Terminated(myStack: seq<Entry>, myStackSize: int)
      returns (outcome: Outcome, stack': seq<Entry>, size': int)
      requires Valid() && threadsInCondWait < threadCount && myStackSize == |myStack|
      modifies this
      ensures Valid() && size' == |stack'|
      ensures old(CanDonate(myStackSize)) ==>
                && outcome == KeepWorking && stack' == Evens(myStack) && newStack == Odds(myStack)
                && threadsInCondWait == old(threadsInCondWait)
      ensures !old(CanDonate(myStackSize)) && myStack != [] ==>
                outcome == KeepWorking && stack' == myStack && unchanged(this)
      ensures !old(CanDonate(myStackSize)) && myStack == [] ==>
                && stack' == [] && newStack == old(newStack) && newStackSize == old(newStackSize)
                && threadsInCondWait == old(threadsInCondWait) + 1
                && (outcome == Quit <==> old(threadsInCondWait) == threadCount - 1)
                && outcome != KeepWorking
    {
      if myStackSize >= 2 && threadsInCondWait > 0 && newStack == [] {
        stack', size' := myStack, myStackSize;
        if threadsInCondWait > 0 && newStack == [] {
          stack', size' := SplitStack(myStack);
        }
        outcome := KeepWorking;
      } else if !Empty(myStack) {
        outcome, stack', size' := KeepWorking, myStack, myStackSize;
      } else {
        stack', size' := myStack, myStackSize;
        if threadsInCondWait == threadCount - 1 {
          threadsInCondWait := threadsInCondWait + 1;
          outcome := Quit;
        } else {
          threadsInCondWait := threadsInCondWait + 1;
          outcome := Park;
        }
      }
    }

    /** The rest of Terminated once a parked worker is woken: when not every
        worker waits, it adopts the staged stack and its size, clears the
        staging area and stops waiting; otherwise it quits. */
    method Wake(myStack: seq<Entry>, myStackSize: int) returns (quit: bool, stack': seq<Entry>, size': int)
      requires Valid() && threadsInCondWait >= 1
      modifies this
      ensures Valid()
      ensures old(threadsInCondWait) < threadCount ==>
                && !quit && stack' == old(newStack) && size' == old(newStackSize)
                && newStack == [] && newStackSize == 0
                && threadsInCondWait == old(threadsInCondWait) - 1
      ensures old(threadsInCondWait) == threadCount ==>
                quit && stack' == myStack && size' == myStackSize && unchanged(this)
    {
      if threadsInCondWait < threadCount {
        stack', size' := newStack, newStackSize;
        newStack, newStackSize := [], 0;
        threadsInCondWait := threadsInCondWait - 1;
        quit := false;
      } else {
        quit, stack', size' := true, myStack, myStackSize;
      }
    }
  }
}
