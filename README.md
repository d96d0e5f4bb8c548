# Parallel tree search for the travelling salesperson problem, in Dafny

This project models the two Pthreads branch-and-bound searches
for the travelling salesperson problem. Both find a cheapest tour that
starts and ends at city 0 and visits each of the n cities once.

- **Static partitioning** (`pth_tsp_search_nr_part1.c`). Each thread gets
  a block of first moves. It then searches depth-first with its own stack
  of partial tours, pruning with a local copy of the best cost
  (`l_best_tour`). Complete tours are offered to a shared champion
  (`best_tour`).
- **Dynamic load balancing** (`pth_tsp_search_nr_part2.c`). The same
  search, with two additions. Each worker counts the records on its stack
  (`my_count`). Before every pass, `Terminated` runs a termination and
  work-sharing protocol: a worker with at least two records splits its
  stack with a waiting worker. A worker whose stack is empty either waits
  for such a donation or, as the last one running, makes everybody quit.

## How the model is built

- **Tours** (`tours.dfy`). A tour record `tour_t` is the class `Tour`. It
  has a fixed `cities` array and mutable `count` and `cost`.
  `Initialize_tour`, `Dup_tour`, the extension step of the search loop and
  `Visited` are its constructors and methods. `Feasible` sits next to it.
  The cost matrix is the flat row-major `seq<int>` that the program reads,
  and `Cost(n, mat, i, j)` is `mat[n*i + j]`.
- **Stacks** (`stack.dfy`). The linked work stack is a `seq<Entry>` whose
  element 0 is the top. `Push` and `Pop` take the old list and return the
  new one, as the program's `stack_elt_t**` argument does. Ghost
  `EntryView` values record what each element stands for: the visited
  cities, their cost, the next city and the edge cost. `Mirrors` ties the
  heap records to these views. `Separate` says that no two records share
  a tour.
- **Champion** (`champion.dfy`). `Check_best_tour` is modelled in
  `champion.dfy`.
- **Seeding** (`seeding.dfy`). This file holds the quotient/remainder
  split of the first moves and the seeding loop.
- **Expansion** (`expansion.dfy`). This file describes, on views, what one
  pass of the search loop pushes (`Children`, `Successors`). It also
  proves that pruning loses no tour that is cheaper than the bound.
- **Search** (`search.dfy`). The search loop of the first program is
  `Search.Search`. It is proved to leave the champion no dearer than any
  tour whose first move lies in the worker's block. `RunAll` is the whole
  program, run with the ranks one after another.
- **Donation** (`donation.dfy`). `Split_stack` is modelled as a loop
  proved against the functions `Evens`/`Odds`, with a round trip
  (`Interleave`) and a multiset partition. The globals
  `threads_in_cond_wait`, `new_stack` and `new_stack_size` are the class
  `Coordinator`. `Terminated` is split at its blocking wait: the
  non-blocking part is `Coordinator.Terminated`, and what follows the wake
  is `Coordinator.Wake`.
- **Worker** (`worker.dfy`). This is the search of the second program,
  with `my_count` kept equal to the stack size and `Terminated` as the loop
  condition. The model proves that every tour whose first move lies in the
  worker's block is either led to by a record the worker staged in
  `new_stack` for another worker or costs no less than the champion. The
  views of those staged records are handed back, and the staged records
  are proved to mirror them.

## Model

| member | source | states |
|---|---|---|
| Tours.PathCostSnoc | pth_tsp_search_nr_part1.c:248-250 | appending city c to a path adds exactly the cost of the edge from the path's last city to c, which is the running cost update of the search loop |
| Tours.PartialTourSnoc | pth_tsp_search_nr_part1.c:309-315 | appending a city that is not yet on a partial tour gives a partial tour (starts at home, no city twice) |
| Tours.PathCostPrefix | pth_tsp_search_nr_part1.c:309-315 | with non-negative costs no prefix of a path costs more than the path, which is what makes pruning on the partial cost sound |
| Tours.PrefixBelowCycle | pth_tsp_search_nr_part1.c:309-315 | no prefix of a Hamiltonian path costs more than the closed tour |
| Tours.Tour.Initialize | pth_tsp_search_nr_part1.c:175-184 | a fresh tour with room for n+1 cities, all NO_CITY, count 0 and cost 0 |
| Tours.Tour.Dup | pth_tsp_search_nr_part1.c:374-383 | a fresh array of n slots equal to the first n slots of the source, and the same count and cost |
| Tours.Tour.Extend | pth_tsp_search_nr_part1.c:248-250 | the city is written at index count, the visited prefix grows by exactly that city, and the cost grows by the edge cost |
| Tours.Tour.Visited | pth_tsp_search_nr_part1.c:325-332 | true if and only if the city is in the visited prefix cities[0..count) |
| Tours.Feasible | pth_tsp_search_nr_part1.c:309-315 | true if and only if nbr is not visited and the cost plus the edge city→nbr is strictly below the local bound |
| WorkStacks.Empty | pth_tsp_search_nr_part1.c:411-416 | true if and only if the stack has no records |
| WorkStacks.Push | pth_tsp_search_nr_part1.c:358-365 | one new top record with the given city and cost over the unchanged old stack; its tour is a fresh duplicate of the caller's (n slots, count, cost), distinct from it |
| WorkStacks.Pop | pth_tsp_search_nr_part1.c:394-403 | the old stack is exactly the returned record (tour, city, cost) followed by the returned rest |
| WorkStacks.PushThenPop | pth_tsp_search_nr_part1.c:358-403 | Pop after Push returns a copy of the pushed tour, the city, the cost and the stack as it was before |
| Champion.CheckBestTour | pth_tsp_search_nr_part1.c:277-294 | the local bound receives the champion's cost as it was at the call; when the closed tour is strictly cheaper, the champion becomes that tour (cities copied, home appended at index n, count n+1, new cost); otherwise the champion is unchanged |
| Champion.OfferCompleteTour | pth_tsp_search_nr_part1.c:251-252 | offering a complete tour keeps the champion a well-formed tour of its own cost (or INFINITY), and leaves it no dearer than the closed tour or than before |
| Seeding.Quotient | pth_tsp_search_nr_part1.c:207 | quotient is never negative |
| Seeding.Remainder | pth_tsp_search_nr_part1.c:208 | the remainder lies in 0 .. threadCount-1, and quotient·threadCount + remainder is n-1, so the n-1 first moves are shared out with nothing left over |
| Seeding.PartialTourCount | pth_tsp_search_nr_part1.c:209-215 | partial_tour_count is never negative; its value and the fact that it is the size of the block from first_final_city to last_final_city are stated in BlockSizes |
| Seeding.NextBlock | pth_tsp_search_nr_part1.c:207-216 | about first_final_city and last_final_city: the block of rank r+1 starts right after the last city of the block of rank r |
| Seeding.Ends | pth_tsp_search_nr_part1.c:207-216 | about first_final_city: the first block starts at city 1, and the block after the last rank would start at n, so the blocks end at city n-1 |
| Seeding.BlockSizes | pth_tsp_search_nr_part1.c:207-216 | any two block sizes differ by at most one; it also restates, for callers, that last_final_city - first_final_city + 1 is partial_tour_count, whose definition is quotient+1 below the remainder and quotient from there on |
| Seeding.FirstMonotone | pth_tsp_search_nr_part1.c:207-216 | first_final_city does not decrease with the rank |
| Seeding.SlicesDisjoint | pth_tsp_search_nr_part1.c:207-216 | the blocks of two different ranks share no city |
| Seeding.SliceInRange | pth_tsp_search_nr_part1.c:207-216 | the block of every rank lies within cities 1 .. n-1 |
| Seeding.SlicesCover | pth_tsp_search_nr_part1.c:207-216 | every city 1 .. n-1 lies in the block of some rank |
| Seeding.HomeTour | pth_tsp_search_nr_part1.c:219-223 | a fresh tour of n+1 slots that has visited home only, at cost 0 |
| Seeding.SeedRecord | pth_tsp_search_nr_part1.c:218-229 | the record for first move i: tour [0], count 1, cost 0, city i, edge cost mat[i] |
| Seeding.SeedsSnoc | pth_tsp_search_nr_part1.c:231-237 | appending the seed for the next first move at the tail keeps the seeds in order and keeps the records apart |
| Seeding.SeedsCover | pth_tsp_search_nr_part1.c:218-238 | every tour whose first move lies in the block is led to by that move's seed |
| Seeding.SeedStack | pth_tsp_search_nr_part2.c:239-260 | the seeding loop: the records seed first_final_city .. last_final_city in order, top first, one per first move, as many as partial_tour_count, all fresh and pairwise separate; the my_count increments equal the stack size |
| Expansion.ExtendedFacts | pth_tsp_search_nr_part1.c:248-250 | the popped tour with its city appended is a partial tour whose path cost is the recorded cost plus the edge |
| Expansion.ChildGood | pth_tsp_search_nr_part1.c:254-258 | the record pushed for a feasible neighbour is a good record one city longer |
| Expansion.ChildrenSize | pth_tsp_search_nr_part1.c:254-258 | the expansion pushes at most one record per neighbour, each one city longer than the expanded record |
| Expansion.ChildrenGood | pth_tsp_search_nr_part1.c:254-258 | every pushed record is a good record one city longer |
| Expansion.NextOnTour | pth_tsp_search_nr_part1.c:325-332 | a tour that continues a path by nbr has not visited nbr before |
| Expansion.ThroughNeighbour | pth_tsp_search_nr_part1.c:309-315 | a tour that continues a path by nbr never revisits nbr and costs at least the path cost plus the edge to nbr |
| Expansion.NextChildCovers | pth_tsp_search_nr_part1.c:254-258 | a tour continuing a good record goes on to a neighbour 1 .. n-1 whose record is pushed and leads to it, unless the tour costs at least the bound |
| Expansion.ChildrenCover | pth_tsp_search_nr_part1.c:254-258 | pruning is sound: a tour continuing the expanded record through a neighbour k .. n-1 is led to by one of the pushed records, or costs at least the bound |
| Expansion.NextIsNotHome | pth_tsp_search_nr_part1.c:254 | a tour continuing a record never goes back home at once, which is why nbr stops at 1 |
| Expansion.MeasureAppend | pth_tsp_search_nr_part1.c:246 | the termination measure of a stack is additive over concatenation |
| Expansion.StepGood | pth_tsp_search_nr_part1.c:246-263 | after a pass of the search loop every record is still good |
| Expansion.ChildrenLighter | pth_tsp_search_nr_part1.c:254-258 | the records pushed for one expanded record weigh less than it |
| Expansion.StepMeasure | pth_tsp_search_nr_part1.c:246-263 | every pass of the search loop strictly decreases the termination measure, so the loop ends |
| Expansion.CompleteCovers | pth_tsp_search_nr_part1.c:251-252 | a record one city short of a full tour leads only to the tour it completes |
| Expansion.StepCovers | pth_tsp_search_nr_part1.c:246-263 | a tour led to by a record before a pass is led to by a record after it, or costs no less than the champion |
| Search.PushExtension | pth_tsp_search_nr_part1.c:256 | the pushed record views as the child for nbr, is fresh, and shares no tour with the records below it or with the champion |
| Search.PushChild | pth_tsp_search_nr_part1.c:255-256 | the feasible case of one loop pass: exactly one new record, the child for nbr, above the children already pushed |
| Search.SkipChild | pth_tsp_search_nr_part1.c:255 | the infeasible case: nothing is pushed, and there is no child for nbr |
| Search.TryNeighbour | pth_tsp_search_nr_part1.c:255-256 | one pass of the expansion loop pushes a record exactly when the neighbour is feasible, and only fresh records |
| Search.StartExpanding | pth_tsp_search_nr_part1.c:254 | before the expansion loop no child has been pushed |
| Search.DoneExpanding | pth_tsp_search_nr_part1.c:254-258 | after the loop, the records are the children of the popped record above the rest of the stack |
| Search.Expand | pth_tsp_search_nr_part1.c:254-258 | the expansion loop pushes exactly the children of the popped record for neighbours n-1 down to 1, all fresh, over the rest of the stack |
| Search.PopExtend | pth_tsp_search_nr_part1.c:247-250 | pop followed by the extension step: the popped tour gains the popped city and cost; the rest of the stack and the champion are untouched |
| Search.Complete | pth_tsp_search_nr_part1.c:251-252 | offering a complete tour leaves the champion well formed and no dearer than that closed tour, and leaves the rest of the stack untouched |
| Search.Step | pth_tsp_search_nr_part1.c:246-263 | one pass of the search loop replaces the records by their successors for the current bound; a complete tour leaves the champion no dearer than it and refreshes the bound |
| Search.Seed | pth_tsp_search_nr_part1.c:218-238 | the seeded records are good and pairwise separate, and lead to every tour whose first move lies in the worker's block; their views are exactly the block's seeds, one per final city from the block's first city onward |
| Seeding.SeedsAreBlock | pth_tsp_search_nr_part1.c:218-238 | records seeded from the block's first city, as many as the block's partial-tour count, view as exactly that block's seeds, so the seeding depends only on the matrix, the thread count and the rank |
| Search.StepTracked | pth_tsp_search_nr_part1.c:246-263 | a pass of the search loop loses no tour: what the records led to, their successors lead to, unless it is no cheaper than the champion |
| Search.Search | pth_tsp_search_nr_part1.c:192-266 | the search ends; the champion stays well formed and never gets dearer; afterwards every tour whose first move lies in the worker's block costs at least the champion |
| Search.RunAll | pth_tsp_search_nr_part1.c:105-112 | with the champion started at INFINITY and every rank searched, for n ≥ 2 the champion costs no more than any tour, and it is an actual optimal tour whenever some tour costs less than INFINITY |
| Donation.SplitUnfold | pth_tsp_search_nr_part2.c:510-519 | the kept half of a list is its head followed by the donated half of its tail, and the donated half is the kept half of its tail |
| Donation.SplitRoundTrip | pth_tsp_search_nr_part2.c:496-550 | interleaving the kept half with the donated half gives the original stack back, so no record is lost, duplicated or reordered |
| Donation.SplitPartition | pth_tsp_search_nr_part2.c:496-550 | the two halves together hold every record of the stack exactly as often as the stack does |
| Donation.SplitSnoc | pth_tsp_search_nr_part2.c:521-534 | the next record goes to the kept half at even positions and to the donated half at odd positions |
| Donation.SplitPrefix | pth_tsp_search_nr_part2.c:521-534 | the same step, stated for the prefixes of one stack |
| Donation.SplitMembers | pth_tsp_search_nr_part2.c:496-550 | each half holds only records of the original stack |
| Donation.SplitMirrors | pth_tsp_search_nr_part2.c:496-550 | both halves of a stack mirror the same halves of its views |
| Donation.SplitGood | pth_tsp_search_nr_part2.c:496-550 | both halves of a list of good records are good |
| Donation.SplitApart | pth_tsp_search_nr_part2.c:496-550 | a record kept and a record donated never share a tour |
| Donation.SplitSeparate | pth_tsp_search_nr_part2.c:496-550 | the records within each half share no tour, and neither half uses a tour the whole stack avoided |
| Donation.SplitMeasure | pth_tsp_search_nr_part2.c:496-550 | the two halves weigh exactly as much as the whole, so the kept half never weighs more, and the donated half of a non-empty stack weighs strictly less than the whole |
| Donation.SplitCovers | pth_tsp_search_nr_part2.c:453-458 | a tour led to by the stack or by earlier donations is, after the split, led to by the kept half or by the donations including this one |
| Donation.Coordinator.constructor | pth_tsp_search_nr_part2.c:88-91 | initially no worker waits and nothing is staged (NULL, size 0) |
| Donation.Coordinator.SplitStack | pth_tsp_search_nr_part2.c:496-550 | the caller keeps the records at even positions and the ones at odd positions are staged, each in order; sizes ⌈k/2⌉ for the caller and ⌊k/2⌋ staged; the count of waiters is unchanged |
| Donation.Coordinator.Terminated | pth_tsp_search_nr_part2.c:450-472 | the branch is chosen as the source does. On the donation guard of line 453 (CanDonate: at least two records, a waiter and nothing staged): split and go on. With records left: go on, nothing changed. With none: join the waiters, and quit exactly when it was the last worker running; otherwise park |
| Donation.Coordinator.Wake | pth_tsp_search_nr_part2.c:474-485 | when not every worker waits, adopt the staged stack and its size, reset the staging to NULL/0 and leave the waiters; otherwise quit with nothing changed |
| Worker.ExpandCounted | pth_tsp_search_nr_part2.c:277-282 | the expansion loop of the second program pushes the same children as Expand, and my_count grows with each push so it equals the stack size |
| Worker.StepCounted | pth_tsp_search_nr_part2.c:269-283 | one pass of the second program's loop, with my_count decremented on Pop and incremented on Push: the same successors as Step, and my_count equals the stack size afterwards |
| Worker.SuccessorsAppend | pth_tsp_search_nr_part2.c:269-283 | a pass of the loop acts on the worker's own records only; records listed after them are carried over unchanged |
| Worker.DonationKeeps | pth_tsp_search_nr_part2.c:453-460 | after a split the kept half still holds as the whole stack did, the donated half is mirrored by its views and shares no tour with the kept half or the champion, and no tour the stack led to is lost between the halves |
| Worker.Share | pth_tsp_search_nr_part2.c:268 | Terminated as the loop condition. On a donation the worker keeps Evens(stack), new_stack becomes Odds(stack) (it was empty), and the handed-out views grow by Odds(views). Otherwise the stack, the handed-out views and new_stack are unchanged. The worker goes on exactly when it has records left, no tour is lost, the staged records stay mirrored by the handed-out views, and my_count stays the stack size |
| Worker.PassTracked | pth_tsp_search_nr_part2.c:269-283 | a pass of the loop keeps good records, lowers the measure, and loses no tour from the worker's records plus those handed out, unless it is no cheaper than the champion |
| Worker.Advance | pth_tsp_search_nr_part2.c:269-286 | the loop body keeps the search invariant and my_count, lowers the measure, and leaves the champion well formed and no dearer |
| Worker.Pass | pth_tsp_search_nr_part2.c:268-287 | a pass of the loop followed by Terminated keeps the search invariant and lowers the measure. The handed-out views change only by a donation made while nothing was handed out, nothing was staged and another worker was waiting, and the donated views weigh strictly less than the stack they came from; otherwise new_stack is unchanged. A pass that keeps working leaves the count of waiting workers as it was |
| Worker.Work | pth_tsp_search_nr_part2.c:268-287 | the loop ends with the worker quitting or waiting. Every tour its records led to is led to by one of the handed-out views or costs no less than the champion. Those views are good records. If there are none, new_stack is as it was; otherwise new_stack was empty at the start, another worker was waiting, and new_stack now holds records mirrored by exactly those views, which weigh strictly less than the records the loop started from |
| Worker.BalancedSearch | pth_tsp_search_nr_part2.c:212-290 | Search of the second program: when the worker stops, every tour whose first move lies in its block is led to by a record it staged in new_stack, or costs no less than the champion, which never got dearer; with no donation new_stack is untouched. A donation happens only while another worker waits, and the donated views weigh strictly less than the block's seeds |
| Worker.Rejoin | pth_tsp_search_nr_part2.c:474-481 | a woken worker that adopted the staged records resumes the loop on them. When it stops again, every tour they led to is led to by a record it staged in turn, or costs no less than the champion. A worker woken with every worker waiting quits and hands nothing on. It stages records only while some worker besides itself was waiting when it was woken, and they weigh strictly less than the records it adopted |

## Left out

- Threads are not modelled: no interleavings, no locks, no read-write
  lock, no condition variable and no broadcast or signal.
  - In `RunAll` the ranks run one after another. This is one legal
    schedule of the first program, because there the workers share only
    the champion.
  - In the second program each worker is modelled on its own. The
    re-checks done under a lock (in `Check_best_tour` and in the donation
    branch of `Terminated`) are kept as written. In this sequential model
    they always agree with the first test.
- Coordinator.Terminated, Coordinator.Wake: the blocking
  `pthread_cond_wait` is the boundary between the two methods. Wake's
  precondition (at least one waiter) stands for "this worker is parked".
- Worker.Rejoin is not what the source does after a wake with nothing
  staged. It requires that a worker woken while others still work finds a
  staged stack. The source adopts whatever is staged and then pops at
  once. After a spurious wake-up, or when another parked worker adopted
  the donation first, it would pop an empty (NULL) stack.
- The optimality argument of the second program is stated per worker, and
  the workers' runs are not composed into one global result. A donor's
  contract says that every tour in its block is led to by the records it
  staged in `new_stack`, or costs no less than the champion. `Rejoin`
  starts from staged records and their views as a precondition, and it
  proves the same about what it stages in turn. No lemma chains a donor's
  staged records to the waiter that adopts them.
- Lost donations are not modelled: the sequential model cannot show the
  following reading of lines 450-485. With two threads, a donor stages a
  split and signals. It then empties its own stack before the waiter
  runs, sees that the other thread waits, counts itself in and quits. The
  woken waiter then finds every thread counted as waiting and quits too,
  so the staged records are never searched.
- Split_stack rewires `next_p` pointers in place. The model builds the
  two halves as sequences of the same records, so it does not model the
  pointer surgery or aliasing between list nodes.
- main, Usage, Read_mat, Print_mat, Print_tour, Print_stack and the DEBUG
  output are left out.
  - The matrix is a parameter with non-negative entries (the input
    format's promise).
  - The thread count is a parameter of at least 1.
  - `RunAll` stands in for main's initialisation of the champion and its
    create/join loop.
- malloc/free are left out. Dafny objects are garbage collected, so
  freeing the popped tour is not modelled. Where the source assumes the
  memory is distinct, the model states it with `fresh` and `Separate`.
- `volatile` is left out.
- Integers are unbounded. The source's `int` arithmetic on costs could
  overflow for large matrices; the model assumes it does not. INFINITY is
  the constant 1000000 and NO_CITY is -1.
- Search.RunAll: the optimality claim is stated for n ≥ 2. For n = 1 the
  program seeds no records (there is no first move). The champion then
  stays at INFINITY with count 0, and the one-city tour [0] is never
  recorded.
