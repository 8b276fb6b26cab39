# PrIDE models and gem5 tooling, verified

The repository holds the security models of PrIDE, a probabilistic in-DRAM tracker against row
hammering, and a gem5 tree used for its performance figures.  This project models the algorithms of
both in Dafny and proves how they fit together.

**The tracker and its mathematics.**  `Tracker` is the ring buffer, `MonteCarlo` the simulation loop
over it, `LossTable` the analytical program and `Reliability` the threshold tables.  `Fifo` is the
drop-oldest queue that the ring refines and that gives all of them one meaning.

- `LossModel` proves the analytical recursion against that queue; `Binomial` and `ActivationLoss` carry
  the result from windows down to single activations; `Occupancy` proves the Markov chain.
- `SimulatedLoss` and `TimelineLoss` give the exact loss of the entry that any activation of the
  simulation loop inserts, over all runs of the loop.
- `LossComparison` proves by how much the recursion differs from that and when the two agree;
  `Survival`, `Gains` and `RecursionBound` prove that the recursion bounds the losses of the loop;
  `Convergence` proves how near the power iteration gets to a stable vector, and carries the comparison to
  the printed numbers; `ExpectedCounters` proves what the simulator's counters are on average.
- `Tardiness` proves the constant that the threshold tables add.

Probabilities are exact reals and a random draw is an arbitrary decision; weights of sets of runs are
finite sums (`RealSums`, `Expectation`).

**The random number generator.**  `MersenneTwister` has the generator on 64-bit words that hold 32-bit
values, against the recurrence of C++11 section 26.5.3.2 [rand.eng.mers]; `TwisterBits` gives the twist bit
by bit and the seeding from an array as a recurrence.

**The tooling.**  `CheckpointUpgrader` schedules migrations by dependency, `CheckpointAggregator` merges
checkpoints, `PipeView` prints instructions in order, `Framing` and `TraceText` write and read
instruction traces (varints as in the Protocol Buffers encoding guide, section "Base 128 Varints"),
`CopyrightDates` compresses year lists, `PortBinding` binds ports and `PortOrder` says when all of them can
be bound.  `Text`, `Cycles` and `Wrappers` hold what they share: string operations and numbers, walks and
cycles of a relation, and optional values and results.

`dafny verify dfyconfig.toml` checks the whole project.

Where code and expectation differ, the model follows the code:

- `calc_lossprob` lets an entry see a whole window of activations before its first refresh.  An entry that
  the simulation loop inserts with the K-th of W activations sees only W - K of them.  The recursion is
  exact for entries that see whole windows (`RecursionIsWholeWindowLoss`).  For the entries of the loop it
  is an upper bound on every window for which the program builds its tables: below capacity 16 it overstates
  the loss of every single one (`RecursionOverstates`), so that it never gives the losses of all of them
  (`RecursionNeverFits`).  The difference is stated exactly (`WholeWindowExcess`, `PrintedExcess`).  The
  bound on the whole-window weight, at the program's probability 1 / W, holds at all capacities from 16
  activations on (`WholeWindowsBound`).  At one and two places it holds for every window and every
  probability strictly between 0 and 1 (`LoneEntry`, `BoundAtTwo`).  It does not hold for every window: two
  activations with probability 1/2 exceed it at three places (`TwoActivationsExceed`).
- The one-entry closed form does count W - K activations, so at capacity 1 the recursion and the closed form
  differ (`RecursionAtCapacityOne`, `SingleEntryBelowRecursion`).
- `init` leaves cprob_n[16] at zero, and capacity 16 reads it, so the loss probability printed for
  capacity 16 is too small even for entries that see whole windows (`LossRecExact`,
  `LargestCapacityIsTooSmall`).
- For a window of fewer than 16 activations the program does not end: `init` asks for the count n + 1,
  for which the unsigned n - k is the largest number, and a 32-bit counter never exceeds that
  (`InitEndsExactly`).
- For one state `init_markov_chain` overwrites its only cell; the program never asks for it
  (`SingleStateCell`).
- Table IX subtracts the tardiness from twice the threshold in unsigned arithmetic.  The printed rows never
  meet the wrap-around (`PrintedRows`); what it would do is in `TablesAgreeExactly`.
- The comment in the pipeline viewer says that instructions out of order by more than min_threshold places
  appear out of order; some do not, and `SortedExactly` says which.
- How near the 1000 iterations come to a stable vector depends on how much some windows forget of their
  start (`Mixing`).  A single window forgets about the weight of as many insertions as there are places,
  which is next to nothing at capacities 8 and 16: with s = 1 the bounds of `SteadyIsNear` and `LongRun` say
  nothing there.  They hold for every number s of windows taken together.
- When the pipeline viewer meets its stop tick or stop number it fails with one argument too few, and the
  instructions still queued are not printed (`ProcessTrace`).
- An empty message ends the stream for the reader (`FramesRoundTrip`).
- The text form of a trace drops virtual addresses and address spaces and needs address, size and flags
  together (`TextRoundTrip`).
- Year ranges outside four digits do not read back (`DatesRoundTrip`).
- The comment in `bind_ports` says that sorting makes exactly one of each pair bindable; a sorted list can
  be well formed and still fail (`PassIsNotComplete`).  The exact condition is that indices have no gaps, no
  connections wait for each other in a circle, and no chain of waiting connections starts behind the last
  place of a connection that waits for it (`BinderCompletes`).
- The filler behind merged memory is the character "0", not the byte zero (`CheckpointAggregator.FILLER`).

## Model

| member | source | states |
|---|---|---|
| Fifo.Conservation | security/0_loss_probability/monte_carlo/tracker.cpp:22-52 | over any run of inserts and refreshes, every inserted item was evicted, was refreshed or is still queued, each exactly once |
| Fifo.LargerTrackerLosesLess | security/0_loss_probability/monte_carlo/tracker.cpp:22-52 | for C1 <= C2 and any common run, the C1 queue is a suffix of the C2 queue and the C2 tracker never evicts more |
| Fifo.RunNatural | security/0_loss_probability/monte_carlo/tracker.cpp:22-52 | the queue discipline never looks at the items: relabelling the insertions relabels queue and history and changes nothing else |
| Tracker.Tracker.constructor | security/0_loss_probability/monte_carlo/tracker.cpp:12-17 | a new tracker is an empty queue with all counters zero |
| Tracker.Tracker.Remove | security/0_loss_probability/monte_carlo/tracker.cpp:22-32 | removes exactly the oldest entry of the abstract queue and returns its position, or returns MAX_UNS on an empty queue |
| Tracker.Tracker.Refresh | security/0_loss_probability/monte_carlo/sim.cpp:23-25 | a refresh is one refresh step of the drop-oldest queue and mitigates the oldest position; all statistics still account for every entry |
| Tracker.Tracker.Insert | security/0_loss_probability/monte_carlo/tracker.cpp:37-52 | an insertion into the ring is one insert step of the drop-oldest queue (evicting the oldest when full), with all four statistics updated for the victim's and the new position and nothing else |
| Tracker.RingPop | security/0_loss_probability/monte_carlo/tracker.cpp:26-28 | advancing ptr modulo the capacity drops exactly the head of the queue read off the ring |
| Tracker.RingPush | security/0_loss_probability/monte_carlo/tracker.cpp:45-48 | writing slot (ptr + num_valids) mod capacity appends exactly one entry to the queue, wrap-around included |
| Tracker.InsertAccounts | security/0_loss_probability/monte_carlo/tracker.cpp:39-51 | insertion keeps, for every position p, s_inserts_pos[p] = s_loss_pos[p] + refreshed entries of p + queued entries of p, and both totals |
| Tracker.RefreshAccounts | security/0_loss_probability/monte_carlo/tracker.cpp:22-32 | a refresh keeps the same per-position accounting without touching a counter |
| Tracker.TotalsAreSums | security/0_loss_probability/monte_carlo/tracker.cpp:41-51 | s_loss and s_inserts are the sums of the per-position counters |
| Tracker.WorstBoundsAverage | security/0_loss_probability/monte_carlo/tracker.cpp:82-95 | if no position loses more than a fraction r of its insertions, neither does the whole tracker |
| Tracker.Tracker.GetLossProb | security/0_loss_probability/monte_carlo/tracker.cpp:82-95 | the returned ratio is attained by a position with insertions (or zero), bounds every position, lies in [0, 1] and is at least s_loss / s_inserts |
| MonteCarlo.AfterStep | security/0_loss_probability/monte_carlo/sim.cpp:37-50 | the tracker after n + 1 activations is the tracker after n, refreshed if n starts a window, and then given the insertion if one is decided |
| MonteCarlo.PositionsOfTimes | security/0_loss_probability/monte_carlo/sim.cpp:43-47 | the simulated history is the history labelled by activation numbers, seen through their window positions |
| MonteCarlo.SimMonteCarlo | security/0_loss_probability/monte_carlo/sim.cpp:30-56 | for every list of decisions the loop ends with the tracker whose history is the timeline of refreshes and insertions, and the reported worst-position ratio bounds the overall loss ratio |
| LossModel.InsertOthers | security/0_loss_probability/monte_carlo/tracker.cpp:37-52 | k insertions push a queued entry forward by the number of evictions, and evict it exactly when that exceeds its index |
| LossModel.FirstWindow | security/0_loss_probability/analytical/loss_probability_analytical.cpp:78-120 | one window decides: more than full_th insertions lose the entry, exactly full_th or an entry at the head save it, fewer leave the same question for (new_ptr, new_size) |
| LossModel.AfterWindow | security/0_loss_probability/analytical/loss_probability_analytical.cpp:95-109 | the recursive call's arguments stay in range, ptr decreases, the assertion holds and full_th drops by exactly `insert` |
| LossModel.LossWeightStep | security/0_loss_probability/analytical/loss_probability_analytical.cpp:88-122 | the weight of losing the entry is the weight of overflowing the first window plus the weighted losses from each surviving state |
| LossModel.LossRecWithDeficit | security/0_loss_probability/analytical/loss_probability_analytical.cpp:76-125 | the recursion plus the exact cost of the unfilled cell cprob_n[MAX_SIZE] is the total weight of the insert-count lists on which the real queue evicts the entry, for any distribution and any number of windows above ptr |
| LossModel.LossRecExact | security/0_loss_probability/analytical/loss_probability_analytical.cpp:76-125 | calc_lossprob equals that eviction weight if and only if it stays below cell MAX_SIZE or a window cannot hold MAX_SIZE insertions |
| Binomial.Pascal | security/0_loss_probability/analytical/loss_probability_analytical.cpp:33-53 | the weight of k insertions in n + 1 activations, by the first activation |
| Binomial.BinomialIsCountWeight | security/0_loss_probability/analytical/loss_probability_analytical.cpp:33-53 | for k up to n the factorial product form is the summed weight of all activation strings of length n with exactly k insertions; for k above n + 1 the weight is zero and the wrapped product is positive; at k = n + 1 the program computes nothing (CalcEndsExactly) |
| Binomial.LoopEndsExactly | security/0_loss_probability/analytical/loss_probability_analytical.cpp:37-48 | a loop of an unsigned 32-bit counter up to and including a bound ends if and only if the bound is not the largest unsigned number |
| Binomial.CalcEndsExactly | security/0_loss_probability/analytical/loss_probability_analytical.cpp:33-53 | all three loops of calc_binomial_prob end if and only if neither argument is the largest number and k is not n + 1, where the unsigned n - k wraps to the largest |
| Binomial.ExpectOfCount | security/0_loss_probability/analytical/loss_probability_analytical.cpp:58-63 | averaging any function of the insertion count over activation strings is averaging it over prob_n |
| Binomial.CountDistIsDistribution | security/0_loss_probability/analytical/loss_probability_analytical.cpp:58-63 | the counts' weights are non-negative and sum to one for every window size and probability |
| Binomial.BalanceIsTail | security/0_loss_probability/analytical/loss_probability_analytical.cpp:65-70 | the running balance before step i is the weight of at least i insertions |
| Occupancy.OccupiedStep | security/0_loss_probability/analytical/loss_probability_analytical.cpp:130-164 | the real queue's length after one window is min(size, i + k) less the refreshed entry, whatever the entries are |
| Occupancy.RowSumsToOne | security/0_loss_probability/analytical/loss_probability_analytical.cpp:139-164 | the transition weights out of every queue length sum to one |
| Occupancy.EntryIsCell | security/0_loss_probability/analytical/loss_probability_analytical.cpp:142-162 | every cell the program copies from prob_n is the summed weight of exactly the insert counts that take length i to length j |
| Occupancy.FilledIsEntry | security/0_loss_probability/analytical/loss_probability_analytical.cpp:139-164 | for two or more states every cell of the matrix, copied or balanced, is the transition weight of any distribution that the table agrees with |
| Occupancy.LastColumn | security/0_loss_probability/analytical/loss_probability_analytical.cpp:150-163 | the balance put into the last column is the weight of all counts that saturate the queue |
| Occupancy.SingleStateCell | security/0_loss_probability/analytical/loss_probability_analytical.cpp:139-150 | for a single state the last-column assignment overwrites the only cell, and is right if and only if a window never has fewer than two insertions |
| Occupancy.StepKeepsDistribution | security/0_loss_probability/analytical/loss_probability_analytical.cpp:175-186 | one vector-matrix product keeps a probability vector one |
| Occupancy.IterateKeepsDistribution | security/0_loss_probability/analytical/loss_probability_analytical.cpp:175-186 | so do any number of iterations |
| Occupancy.IterateFilled | security/0_loss_probability/analytical/loss_probability_analytical.cpp:175-186 | iterating the program's matrix is iterating the occupancy step of any distribution that the table agrees with |
| Occupancy.ReachStep | security/0_loss_probability/analytical/loss_probability_analytical.cpp:130-186 | the weight of reaching length j in t + 1 windows decomposes over the length after the first window with the matrix entries |
| Occupancy.IterateIsOccupancy | security/0_loss_probability/analytical/loss_probability_analytical.cpp:166-190 | after t iterations component j is the total weight of the lists of t windows that leave the real queue with j entries, started from the initial vector |
| ActivationLoss.WindowsOfActivations | security/0_loss_probability/analytical/loss_probability_analytical.cpp:58-125 | strings of whole windows of activations, each closed by a refresh, are for the tracker the lists of their per-window insertion counts; WholeWindowsShape says where the simulation loop has them |
| ActivationLoss.ExpectOfWindows | security/0_loss_probability/analytical/loss_probability_analytical.cpp:58-63 | averaging over activation strings is averaging over lists of independent binomial counts |
| ActivationLoss.ActivationLossIsWindowLoss | security/0_loss_probability/analytical/loss_probability_analytical.cpp:76-125 | the eviction weight over activation strings is the eviction weight over insert-count lists with binomial weights |
| ActivationLoss.RecursionIsWholeWindowLoss | security/0_loss_probability/analytical/loss_probability_analytical.cpp:58-125 | with the program's own tables, the recursion equals the loss weight of an entry that sees whole windows of activations only, if and only if the unfilled cell is not read or carries no weight |
| ActivationLoss.SingleEntryLossExact | security/0_loss_probability/analytical/loss_1entry.py:5-6 | an entry inserted by the K-th of W activations into a one-entry tracker is evicted before the next refresh with weight exactly 1 - (1 - 1/W)^(W - K) |
| ActivationLoss.RecursionAtCapacityOne | security/0_loss_probability/analytical/loss_probability_analytical.cpp:206 | for capacity 1 the recursion gives 1 - (1 - 1/W)^W, larger than the printed closed form by (1/W)(1 - 1/W)^(W - 1): the two count different windows |
| SimulatedLoss.WholeWindowsShape | security/0_loss_probability/monte_carlo/sim.cpp:37-50 | from any window boundary of the loop, m windows of decisions give a refresh and then m whole windows of insertions, up to the refresh that closes them |
| SimulatedLoss.JustInserted | security/0_loss_probability/monte_carlo/sim.cpp:43-47 | right after activation n inserts, its entry is the newest of between one and capacity entries, and the only one of activation n |
| SimulatedLoss.LostIsFutureLost | security/0_loss_probability/monte_carlo/sim.cpp:37-50 | in every run of the loop, whether the entry of activation n is evicted depends only on the queue length at its insertion, its position in the window and the decisions after it |
| SimulatedLoss.FutureIsWindows | security/0_loss_probability/monte_carlo/sim.cpp:37-50 | an entry inserted at position K of a window of W is lost exactly if the queue loses it over the insertion counts of the W - K activations left and of the whole windows that follow |
| SimulatedLoss.EntryLossSplit | security/0_loss_probability/monte_carlo/sim.cpp:37-50 | its loss weight is the average, over the insertions in W - K activations, of its loss given their number |
| SimulatedLoss.WholeWindowSplit | security/0_loss_probability/analytical/loss_probability_analytical.cpp:76-125 | the weight behind the recursion is the same average over W activations |
| SimulatedLoss.EntryLossExact | security/0_loss_probability/monte_carlo/sim.cpp:37-50 | the exact loss weight at position K: the weight of at least `capacity` insertions in W - K activations, plus for every smaller count its weight times the whole-window loss of the state it leads to |
| TimelineLoss.LossBySize | security/0_loss_probability/monte_carlo/sim.cpp:37-50 | over all runs, the loss of activation n's entry is the average over what happened before of the loss for the queue length it then meets |
| TimelineLoss.SizeAtPosition | security/0_loss_probability/monte_carlo/sim.cpp:37-50 | that length is the queue left by the earlier whole windows plus the window's own earlier insertions plus one, at most the capacity |
| TimelineLoss.ExpectOfOccupied | security/0_loss_probability/analytical/loss_probability_analytical.cpp:130-186 | averages of any function of the queue length after t windows are sums with the reach weights |
| TimelineLoss.LossByPosition | security/0_loss_probability/monte_carlo/sim.cpp:30-56 | the exact loss, over all runs from the empty tracker, of the entry inserted by any position of any window: the t-fold occupancy step of the empty queue, mixed with the losses by queue length and earlier insertions |
| ExpectedCounters.CountersOfTracker | security/0_loss_probability/monte_carlo/tracker.cpp:39-51 | the loss and insertion counters of the tracker that a run leaves behind, as functions of the draws |
| ExpectedCounters.ExpectedLosses | security/0_loss_probability/monte_carlo/sim.cpp:30-56 | over all runs of T windows the expected loss counter of position K is q times the sum over the windows of the exact loss of its entry up to the end of the run |
| ExpectedCounters.ExpectedInserts | security/0_loss_probability/monte_carlo/sim.cpp:43-47 | the expected insertion counter of every position is q T |
| LossComparison.MoreActivations | security/0_loss_probability/analytical/loss_probability_analytical.cpp:58-63 | k more activations change the average of any function of the count by the insertion probability times the summed average effects of one more insertion |
| LossComparison.HorizonIrrelevant | security/0_loss_probability/analytical/loss_probability_analytical.cpp:76-125 | more windows than the entry has predecessors do not change its loss weight, for any distribution of counts |
| LossComparison.WholeWindowExcess | security/0_loss_probability/analytical/loss_probability_analytical.cpp:76-125 | the recursion's weight exceeds the loss at position K by exactly the insertion probability times the effects of the K activations that the entry does not see |
| LossComparison.LastPosition | security/0_loss_probability/monte_carlo/sim.cpp:37-50 | an entry of a window's last activation has the whole-window loss of an entry one place further on, or none if it is alone |
| LossComparison.LossPossible | security/0_loss_probability/analytical/loss_probability_analytical.cpp:76-125 | with insertion probability strictly between 0 and 1, a loss has positive weight whenever the windows before the entry's turn have room for the missing insertions |
| LossComparison.LossImpossible | security/0_loss_probability/analytical/loss_probability_analytical.cpp:76-125 | with one activation per window nothing is lost from two places up |
| LossComparison.WholeWindowsFit | security/0_loss_probability/analytical/loss_probability_analytical.cpp:76-125 | the whole-window weights are the losses of all entries of the loop if and only if a window has one activation and the queue more than one place, at any capacity |
| RecursionBound.RecursionNeverFits | security/0_loss_probability/analytical/loss_probability_analytical.cpp:58-125 | with the tables that the program builds, at no capacity the recursion gives the losses of all entries of the loop |
| LossComparison.LargestFitsNot | security/0_loss_probability/analytical/loss_probability_analytical.cpp:58-125 | at capacity MAX_SIZE and for windows of at least MAX_SIZE activations, the losses of a second entry over the positions of a window are not one number at all |
| LossComparison.LoneEntry | security/0_loss_probability/monte_carlo/sim.cpp:37-50 | an entry inserted into an empty queue is lost with the weight of `capacity` insertions in W - K activations, never more often than the recursion says, and equally often if and only if W is below the capacity |
| LossComparison.SingleEntryBelowRecursion | security/0_loss_probability/analytical/loss_1entry.py:5-6 | for one place and W >= 2 the loss at position K over the loop's runs is the closed form of the figure, and strictly below the recursion's value, for every K |
| Survival.LossIsUnsaved | security/0_loss_probability/analytical/loss_probability_analytical.cpp:76-125 | the whole-window loss weight depends only on the refreshes an entry still needs and on the free places: it is what the survival weight leaves |
| Survival.SavedSpread | security/0_loss_probability/analytical/loss_probability_analytical.cpp:76-125 | an entry is saved exactly when the windows before its refresh make the evictions that it needs: the survival weight as a sum over windows of the weight of exactly that many evictions |
| Survival.HeadRenewal | security/0_loss_probability/analytical/loss_probability_analytical.cpp:76-125 | behind one free place the survival weights renew themselves over the count of the first window, up to the weight of a late first eviction |
| Survival.GainRenewal | security/0_loss_probability/analytical/loss_probability_analytical.cpp:76-125 | the gains of standing one place further back, weighted with the tails of the count, add up to the weight of making the first eviction in a given window |
| Gains.GainPositive | security/0_loss_probability/analytical/loss_probability_analytical.cpp:76-125 | for counts like those of W activations of probability 1 / W, W >= 16, every further place behind one free place saves an entry strictly more often, from the second place on, without limit |
| RecursionBound.WindowIsBalanced | security/0_loss_probability/analytical/loss_probability_analytical.cpp:198-199 | the counts of all the program's windows are of that kind |
| RecursionBound.BumpedAverage | security/0_loss_probability/analytical/loss_probability_analytical.cpp:33-53 | averages over any number of activations of effects whose only negative one stands between two large enough ones are not negative |
| RecursionBound.MoreRoom | security/0_loss_probability/analytical/loss_probability_analytical.cpp:95-109 | a further free place never makes an entry that sees whole windows more likely to be lost |
| RecursionBound.BoundAtTwo | security/0_loss_probability/analytical/loss_probability_analytical.cpp:76-125 | with two places, for every insertion probability and every window, no entry of the loop is lost more often than the recursion's weight says |
| RecursionBound.WholeWindowsBound | security/0_loss_probability/analytical/loss_probability_analytical.cpp:76-125 | for probability 1 / W and W >= 16, at every capacity, queue length and position, an entry of the loop is lost at most as often as in whole windows, and strictly less often if a window can fill the queue |
| RecursionBound.RecursionOverstates | security/0_loss_probability/analytical/loss_probability_analytical.cpp:58-125 | below capacity 16 and with the tables that the program builds, calc_lossprob is strictly above the loss of every entry that the simulation loop can insert |
| RecursionBound.PrintedBoundsFirst | security/0_loss_probability/analytical/loss_probability_analytical.cpp:215-220 | below capacity 16 the printed number is strictly above the long-run loss of the entries that the first activation of a window inserts |
| RecursionBound.TwoActivationsExceed | security/0_loss_probability/analytical/loss_probability_analytical.cpp:76-125 | the bound needs enough activations: for two of them, probability 1/2 and three places an entry is lost with weight 3/16, in whole windows with 5/32 |
| LossTable.Analysis.CalcBinomialProb | security/0_loss_probability/analytical/loss_probability_analytical.cpp:33-53 | where its loops of 32-bit counters end, calc_binomial_prob returns the product form, for k up to n the weight of the activation strings with exactly k insertions |
| LossTable.Analysis.Init | security/0_loss_probability/analytical/loss_probability_analytical.cpp:58-71 | for every window on which the loops end, prob_n holds the weights and cprob_n the tails of the insertion counts, and cell MAX_SIZE of cprob_n keeps its zero |
| LossTable.InitEndsExactly | security/0_loss_probability/analytical/loss_probability_analytical.cpp:58-71 | the loops of init end if and only if the window has at least MAX_SIZE activations and fewer than the largest number: a smaller window of n asks for the count n + 1 and never returns |
| LossTable.ComputedTables | security/0_loss_probability/analytical/loss_probability_analytical.cpp:33-71 | what init computes for such a window are the weights and tails that the recursion needs |
| LossTable.Analysis.CalcLossProb | security/0_loss_probability/analytical/loss_probability_analytical.cpp:76-125 | the program's recursion over the global tables is the specification recursion whose exactness is proved |
| LossTable.Analysis.FillFirstRow | security/0_loss_probability/analytical/loss_probability_analytical.cpp:139-150 | row 0 is the one built from the table, with the overwritten cell for a single state |
| LossTable.Analysis.FillRow | security/0_loss_probability/analytical/loss_probability_analytical.cpp:153-164 | every other row is the one built from the table, and no other row changes |
| LossTable.Analysis.FillMatrix | security/0_loss_probability/analytical/loss_probability_analytical.cpp:131-164 | the whole matrix is the one built from the table; for two or more states and any distribution that the table agrees with, it is the queue's occupancy step |
| LossTable.Analysis.Multiply | security/0_loss_probability/analytical/loss_probability_analytical.cpp:176-185 | one pass of the double loop replaces the vector by its product with the matrix and clears the scratch array, for any number of states |
| LossTable.Analysis.PowerIteration | security/0_loss_probability/analytical/loss_probability_analytical.cpp:166-186 | the passes compute the iterated product of the uniform vector, for any number of states; for two states the first component ends at s + (1/2 - s) p1^1000 with s = p0 / (1 - p1) |
| LossTable.Analysis.InitMarkovChain | security/0_loss_probability/analytical/loss_probability_analytical.cpp:130-191 | MCSoln is that vector, for any number of states, with the same closed form at two; IterateFilled makes it the occupancy of the queue |
| LossTable.Analysis.LossForCapacity | security/0_loss_probability/analytical/loss_probability_analytical.cpp:215-220 | the accumulated loss is the average of the recursion over MCSoln, for every capacity |
| LossTable.Analysis.PrintLossProb | security/0_loss_probability/analytical/loss_probability_analytical.cpp:197-226 | the five printed loss probabilities for every window on which the program returns: the one-entry closed form, then the averages for capacities 2, 4, 8 and 16 over tables built for this window; the one for capacity 2 is the tail from 2 times one plus p0 times what the closed form after 1000 passes leaves to the second state |
| LossTable.TwoStateIterates | security/0_loss_probability/analytical/loss_probability_analytical.cpp:166-186 | for two states the vector after any number n of passes over any table, exactly: s + (1/2 - s) p1^n |
| RecursionBound.TwoStatesSettle | security/0_loss_probability/analytical/loss_probability_analytical.cpp:166-190 | for every window of 16 activations or more the 1000 passes over two states end within a tenth of the thousandth power of a number below 0.381 of the vector that a pass leaves alone, whose first component lies between 0.558 and 0.6 |
| RecursionBound.PrintedForTwoRange | security/0_loss_probability/analytical/loss_probability_analytical.cpp:215-223 | the loss printed for capacity 2 lies between 0.29 and 0.316 for every window on which the program returns |
| LossTable.PrintedIsWholeWindowLoss | security/0_loss_probability/analytical/loss_probability_analytical.cpp:215-220 | from two places up to below capacity 16 the printed number is the average, over the stable vector, of the loss weight of entries that see whole windows, whatever the horizon from the capacity up |
| LossTable.LargestCapacityIsTooSmall | security/0_loss_probability/analytical/loss_probability_analytical.cpp:211-222 | at capacity 16 the printed number is below that average by at least the positive weight of 16 or more insertions in a window |
| Convergence.WindowsShare | security/0_loss_probability/analytical/loss_probability_analytical.cpp:166-186 | whatever the queue length, s windows fill the queue at least as often as from empty and empty it at least as often as from the greatest length: this common part is Mixing |
| Convergence.OneWindowMixing | security/0_loss_probability/analytical/loss_probability_analytical.cpp:139-164 | for one window that is at least the weight of as many insertions as there are states |
| Convergence.MixingPositive | security/0_loss_probability/analytical/loss_probability_analytical.cpp:166-186 | from as many windows on as there are places to empty, something is always forgotten |
| Convergence.WindowsContract | security/0_loss_probability/analytical/loss_probability_analytical.cpp:175-186 | s products bring any two probability vectors nearer by the factor of one minus their common part, for every s |
| Convergence.IterateContracts | security/0_loss_probability/analytical/loss_probability_analytical.cpp:175-186 | t times s products bring them nearer by its t-th power |
| Convergence.SteadyIsNear | security/0_loss_probability/analytical/loss_probability_analytical.cpp:166-190 | from any starting distribution, after 1000 windows or more, the occupancy is within twice the (1000 / s)-th power of what s windows do not forget, for any s, of the vector that the program calls stable |
| Convergence.SteadyIsNearlyStable | security/0_loss_probability/analytical/loss_probability_analytical.cpp:166-190 | a further window changes that vector by no more, and no vector that a window leaves alone is further from it |
| Convergence.LongRun | security/0_loss_probability/monte_carlo/sim.cpp:30-56 | from the 1000th window of the loop on, the exact loss of position K's entry is within the same distance of its average over the program's stable vector |
| Convergence.PrintedExcess | security/0_loss_probability/analytical/loss_probability_analytical.cpp:215-220 | below capacity 16 the printed number is the long-run loss of a window's first position plus the average effect of one activation that no entry of the loop sees |
| Reliability.PfailIsWeight | security/1_reliability/sim-reliability.cpp:100-107 | get_pfail_round is the summed weight of the strings of th activations, each of which inserts nothing, an entry that is lost or one that is mitigated, in which none is mitigated |
| Reliability.MttfIsRounds | security/1_reliability/sim-reliability.cpp:111-128 | the time to failure in seconds times that weight is one round: 3.9 microseconds, 1.95 under RFM-40 and 0.78 under RFM-16 |
| Reliability.MoreLossFailsSooner | security/1_reliability/sim-reliability.cpp:100-128 | a larger loss probability makes failure strictly likelier in every round of one activation or more, and the time to failure strictly shorter |
| Reliability.TrhStarByWeight | security/1_reliability/sim-reliability.cpp:135-139 | t is at most TRH* if and only if the weight of t activations without a mitigation, times the target in seconds, is at least one round of 3.9 microseconds |
| Reliability.TrhStarBounds | security/1_reliability/sim-reliability.cpp:135-139 | TRH* times the probability of an insertion that is not lost lies between bounds that depend on the target alone |
| Reliability.TrhStarScales | security/1_reliability/sim-reliability.cpp:135-139 | if at most the k-th part of the insertions that count is left, TRH* is at least k times as large |
| Reliability.TardyNoWrap | security/1_reliability/sim-reliability.cpp:145-152 | the tardiness is one less than buffer size times window, half of that under the open-page policy, as long as the product fits in 32 bits, and wraps around at zero |
| Reliability.FloorLogExists | security/1_reliability/sim-reliability.cpp:135-139 | for every base in (0, 1) and ratio in (0, 1] the truncated quotient of logarithms exists |
| Reliability.TrhStarIsThreshold | security/1_reliability/sim-reliability.cpp:111-139 | under each policy and its scaled target, mttf(t) <= target if and only if t <= TRH*: the shorter RFM rounds and the 2x and 5x targets cancel exactly |
| Reliability.TrhStarUnique | security/1_reliability/sim-reliability.cpp:135-139 | t satisfies mttf(t) <= target < mttf(t + 1) if and only if t is TRH* |
| Reliability.TrhStarMonotone | security/1_reliability/sim-reliability.cpp:135-139 | a larger loss probability or a longer target never lowers TRH*; MoreLossFailsSooner and TrhStarScales say by how much more loss counts |
| Reliability.TablesAgree | security/1_reliability/sim-reliability.cpp:387-444 | Table IX (lines 387-444) against Table VI (lines 267-303), for the time shared out over 22 banks, either page policy and every refresh policy: while the tardiness is at most twice the threshold, a double-sided threshold misses the target in one exactly if it is at most half the printed single-sided threshold of the other |
| Reliability.PrintedRows | security/1_reliability/sim-reliability.cpp:396-437 | the printed rows are all of this kind |
| Reliability.TablesAgreeExactly | security/1_reliability/sim-reliability.cpp:387-444 | for any difference, wrapped or not, the tables agree if and only if the tardiness is at most twice the threshold or the wrapped difference is at most TRH* |
| Tardiness.RunOnTime | security/0_loss_probability/monte_carlo/sim.cpp:37-50 | in every run the entry at queue index i has at most capacity - i refreshes between its own window and now |
| Tardiness.TardyBound | security/1_reliability/sim-reliability.cpp:145-152 | in every run, an activation that still meets an entry inserted at t comes at most get_tardy activations later, less t's position in its window |
| Tardiness.BoundAttained | security/1_reliability/sim-reliability.cpp:145-152 | for every position in a window, a run that makes an entry inserted there wait exactly get_tardy activations less its position, for every window of two or more activations and for every one-entry tracker |
| Tardiness.TardyIsExact | security/1_reliability/sim-reliability.cpp:145-152 | at every position some run attains the bound if and only if the window has at least two activations or the capacity is one |
| MersenneTwister.TermShift | security/0_loss_probability/monte_carlo/mtrand.h:184-198 | restarting the recurrence from any N consecutive terms continues the same sequence |
| MersenneTwister.PartlyStep | security/0_loss_probability/monte_carlo/mtrand.h:191-195 | one in-place assignment of reload, in either loop or the final wrap to state[0], yields the next term of the recurrence from words already overwritten |
| MersenneTwister.NextStream | security/0_loss_probability/monte_carlo/mtrand.h:284-298 | a draw removes exactly the first number of the infinite output stream, whether or not it reloads |
| MersenneTwister.SkipStream | security/0_loss_probability/monte_carlo/mtrand.h:284-298 | for any k and j, the j-th output after k draws is output k + j, however often the state was reloaded |
| MersenneTwister.SeededOutput | security/0_loss_probability/monte_carlo/mtrand.h:200-205 | the k-th output of a seeded generator is the tempering of term N + k of the recurrence |
| MersenneTwister.TwistWide | security/0_loss_probability/monte_carlo/mtrand.h:128-136 | on 64-bit words holding 32-bit values, twist is the 32-bit recurrence step, whose bits TwistBit gives |
| TwisterBits.TwistBit | security/0_loss_probability/monte_carlo/mtrand.h:128-136 | bit b of a twisted word is the exclusive or of bit b of the first word, of bit b + 1 of the third (for b = 30 the top bit of the second, for b = 31 nothing) and, if the third word is odd, of a one at fifteen given places |
| TwisterBits.Recurrence | security/0_loss_probability/monte_carlo/mtrand.h:184-198 | every word comes from the words 624, 623 and 227 places before it |
| TwisterBits.TemperUnits | security/0_loss_probability/monte_carlo/mtrand.h:292-297 | the numbers drawn from the 32 words with a single bit |
| TwisterBits.InitWordsAt | security/0_loss_probability/monte_carlo/mtrand.h:167-182 | the words from one seed: the seed, then each from the one before it and its index |
| TwisterBits.SeedingSteps | security/0_loss_probability/monte_carlo/mtrand.h:176-236 | one step of each seeding loop in numbers, among them the first two words behind the seed 5489 |
| TwisterBits.KeyWordsAreTerms | security/0_loss_probability/monte_carlo/mtrand.h:207-239 | array seeding as a recurrence: every pass of either loop writes the next word from the one 623 places before it and the latest one, and the state is the last 623 words behind one with its top bit set |
| MersenneTwister.TemperWide | security/0_loss_probability/monte_carlo/mtrand.h:292-297 | the four tempering assignments on a 64-bit word give the 32-bit tempering, with no bit above 32 left |
| MersenneTwister.InitWide | security/0_loss_probability/monte_carlo/mtrand.h:179 | the masked 64-bit seeding product equals 32-bit arithmetic |
| MersenneTwister.KeyWide | security/0_loss_probability/monte_carlo/mtrand.h:221-224 | so does the first array-seeding step |
| MersenneTwister.IndexWide | security/0_loss_probability/monte_carlo/mtrand.h:231-234 | so does the second, including its subtraction below zero |
| MersenneTwister.MixKey | security/0_loss_probability/monte_carlo/mtrand.h:219-228 | the first array-seeding loop keeps i in [1, N) and j below the key length for any positive key length |
| MersenneTwister.MixIndex | security/0_loss_probability/monte_carlo/mtrand.h:229-237 | the second array-seeding loop keeps i in [1, N) |
| MersenneTwister.MTRand.FromSeed | security/0_loss_probability/monte_carlo/mtrand.h:265-266 | a new generator is the seeded one |
| MersenneTwister.MTRand.Initialize | security/0_loss_probability/monte_carlo/mtrand.h:167-182 | the state holds the 32-bit initial words of the low 32 bits of the seed |
| MersenneTwister.MTRand.Reload | security/0_loss_probability/monte_carlo/mtrand.h:184-198 | the in-place loops replace the state by the next N terms, and left and pNext are reset together |
| MersenneTwister.MTRand.Seed | security/0_loss_probability/monte_carlo/mtrand.h:200-205 | single-value seeding gives the seeded generator of the low 32 bits |
| MersenneTwister.MTRand.SeedArray | security/0_loss_probability/monte_carlo/mtrand.h:207-240 | array seeding gives the generator of the 32-bit mixing of the keys' low words, for any positive length, although the words are 64 bits wide |
| MersenneTwister.MTRand.RandInt | security/0_loss_probability/monte_carlo/mtrand.h:284-298 | returns the next number of the stream, below 2^32, keeps pNext = N - left, and leaves the generator one draw further; from the state with the single word 1 at index 1 and none left it draws 4271368940 |
| MersenneTwister.MTRand.Save | security/0_loss_probability/monte_carlo/mtrand.h:364-371 | the 625 cells hold the words and, last, the number of words left |
| MersenneTwister.MTRand.Load | security/0_loss_probability/monte_carlo/mtrand.h:373-381 | loading cells saved from any generator makes this generator equal to it, hence all future output |
| Cycles.NoSinkLeads | performance/gem5/util/cpt_upgrader.py:239-245 | in a set in which everything waits for a member, every member leads to a cycle |
| Cycles.LeadsOn | performance/gem5/util/cpt_upgrader.py:239-245 | what leads to a cycle waits for something that does |
| Cycles.AcyclicMeansNoneLeads | performance/gem5/util/cpt_upgrader.py:239-245 | there is a cycle if and only if something leads to one |
| CheckpointUpgrader.StuckMeansLeading | performance/gem5/util/cpt_upgrader.py:241-245 | when no tag is ready, the tags left are exactly the missing tags that lead to a dependency cycle, and there is one |
| CheckpointUpgrader.LeadingStaysLeft | performance/gem5/util/cpt_upgrader.py:240-251 | a round never applies a tag that leads to a cycle |
| CheckpointUpgrader.Registry.Add | performance/gem5/util/cpt_upgrader.py:91-137 | the dictionaries point at the last script with a tag or legacy version |
| CheckpointUpgrader.Registry.LinkLegacy | performance/gem5/util/cpt_upgrader.py:166-170 | exactly the versions of the unbroken chain from 3 on depend on their predecessor; the lookup fails if and only if 3 is there without 2 |
| CheckpointUpgrader.LinkedMeans | performance/gem5/util/cpt_upgrader.py:166-170 | with versions 2 to v at hand the script of version v depends on that of v - 1 alone; behind a gap, or without a version, a script keeps its own list |
| CheckpointUpgrader.Registry.PassForward | performance/gem5/util/cpt_upgrader.py:173-179 | each forward dependency gains the tag, and the step fails if and only if one names no loaded tag |
| CheckpointUpgrader.Registry.AuditOne | performance/gem5/util/cpt_upgrader.py:173-184 | fails if and only if the tag names something unknown, forwards or backwards |
| CheckpointUpgrader.Registry.Audit | performance/gem5/util/cpt_upgrader.py:172-184 | succeeds if and only if every tag names only loaded tags, in whatever order the dictionary is walked; then every tag depends on its own list plus exactly the tags that forward to it |
| CheckpointUpgrader.Registry.LoadAll | performance/gem5/util/cpt_upgrader.py:160-184 | when loading succeeds and when not, and the resulting dependencies: own list, legacy predecessor, forwarders |
| CheckpointUpgrader.Registry.Ready | performance/gem5/util/cpt_upgrader.py:139-143 | ready if and only if all dependencies are present |
| CheckpointUpgrader.Registry.ReadySet | performance/gem5/util/cpt_upgrader.py:241 | the round is exactly the ready tags |
| CheckpointUpgrader.Registry.Migrate | performance/gem5/util/cpt_upgrader.py:239-251 | succeeds if and only if the missing tags have no dependency cycle; then each missing tag is applied exactly once, after everything it depends on, and the tags are the old ones plus all known ones, whatever the set iteration order; otherwise the tags reported as not applicable are exactly the missing ones that lead to a cycle |
| CheckpointUpgrader.Registry.ProcessFile | performance/gem5/util/cpt_upgrader.py:207-257 | the same from a checkpoint's own tags or linear version number, with both failure cases exactly; a checkpoint that has all tags is left alone |
| PipeView.SortSorts | performance/gem5/util/o3-pipeview.py:167 | the stable sort is a sorted permutation |
| PipeView.ReleaseInOrder | performance/gem5/util/o3-pipeview.py:165-186 | releasing the front of the sorted queue while min_threshold are kept preserves the order of everything released so far |
| PipeView.Viewer.PrintInsts | performance/gem5/util/o3-pipeview.py:165-186 | the loop sorts and releases down to the lower threshold; an instruction within every limit that is set, and retired if only committed ones are wanted, is then in queue and output together as often as before, and no other is printed |
| PipeView.Viewer.QueueInst | performance/gem5/util/o3-pipeview.py:157-162 | queues the instruction and drains to min_threshold exactly when max_threshold is exceeded |
| PipeView.Viewer.Feed | performance/gem5/util/o3-pipeview.py:157-162 | one arrival keeps the order invariant whenever at most min_threshold larger numbers came before it |
| PipeView.Viewer.ProcessTrace | performance/gem5/util/o3-pipeview.py:125-148 | over any trace, sorted output if no instruction is displaced by more than min_threshold places, for any two thresholds; without an early stop an instruction is printed exactly as often as it was queued if its number and fetch tick are within every limit that is set, bounds included, and it retired or uncommitted ones are wanted, and else never; a fetch behind the stop tick plus drift or the stop number plus max_threshold ends the run with the failure of its print call, and then the output is what the drains before it released |
| PipeView.ThresholdIsTight | performance/gem5/util/o3-pipeview.py:49-50 | for every pair of thresholds some trace displaced by min_threshold + 1 places prints out of order: the stated assumption cannot be weakened |
| PipeView.SortedExactly | performance/gem5/util/o3-pipeview.py:49-50 | but it is not necessary: the output is sorted if and only if no instruction that is shown arrives after a larger one that is shown has been released |
| Framing.VarintRoundTrip | performance/gem5/util/protolib.py:98-155 | decoding takes exactly the bytes the encoder wrote, whatever follows, and returns the value modulo 2^32 |
| Framing.VarintByte | performance/gem5/util/protolib.py:143-155 | byte i of a varint is the i-th group of seven bits, with the top bit set on all bytes but the last |
| Framing.BadVarints | performance/gem5/util/protolib.py:98-126 | ten marked bytes in front are an error, and marked bytes up to the end of the file read as zero |
| Framing.NegativeLength | performance/gem5/util/protolib.py:117-141 | a length with bit 63 set is read as negative, and then all that is left of the file is the message |
| Framing.ShortMessage | performance/gem5/util/protolib.py:128-141 | a message that breaks off is handed on as far as it goes |
| Framing.ReadFrame | performance/gem5/util/protolib.py:128-163 | a framed message in front of anything reads back as its payload cut to its 32-bit length, or as the end of the stream when that length is zero |
| Framing.FramesRoundTrip | performance/gem5/util/protolib.py:128-163 | writing a list of messages and reading until failure gives the list back if and only if every message is non-empty and shorter than 2^32 bytes |
| Framing.NextGroup | performance/gem5/util/protolib.py:115 | the decoder's bitwise or puts each seven-bit group above everything read so far, so it adds |
| Framing.Source.DecodeVarint32 | performance/gem5/util/protolib.py:98-126 | the byte loop returns the number in the groups up to the first unmarked byte, 0 at the end of the file, or the error after ten marked bytes, and takes exactly those bytes |
| Framing.Source.DecodeMessage | performance/gem5/util/protolib.py:128-141 | reads one length and payload, or reports that there is none, leaving the rest of the stream |
| Framing.Source.DecodeAll | performance/gem5/util/decode_inst_dep_trace.py:154 | the reading loop returns all messages up to the first failure |
| Framing.Sink.EncodeVarint32 | performance/gem5/util/protolib.py:143-155 | the byte loop appends the base-128 form of the value and nothing else |
| Framing.Sink.EncodeMessage | performance/gem5/util/protolib.py:157-163 | appends the framed message |
| Text.SplitJoin | performance/gem5/util/encode_inst_dep_trace.py:148-149 | splitting undoes joining when no part contains the separator |
| Text.DecimalRoundTrip | performance/gem5/util/encode_inst_dep_trace.py:152-154 | reading the digits of a natural number gives the number |
| Text.StripSpaces | performance/gem5/util/encode_inst_dep_trace.py:148 | stripping takes away all the whitespace around a text and nothing of it |
| Text.ParseIntReads | performance/gem5/util/encode_inst_dep_trace.py:152-177 | what int and long read: whitespace around, a sign before, decimal digits and, for long alone, a letter behind |
| Text.NumeralRoundTrip | performance/gem5/util/encode_inst_dep_trace.py:152-177 | reading a printed whole number of either sign as int or long gives the number |
| TraceText.WriteRecord | performance/gem5/util/decode_inst_dep_trace.py:157-203 | the piecewise writes produce the record's line behind what was written before, or the unsupported-type error |
| TraceText.ParseDeps | performance/gem5/util/encode_inst_dep_trace.py:181-192 | the dependency loop keeps every non-empty item in order and stops at the first one that long does not take or the field does not hold |
| TraceText.ParseLine | performance/gem5/util/encode_inst_dep_trace.py:147-192 | the parser's checks and conversions in order, with int's and long's whitespace, sign and suffix, the fields' widths and every error case |
| TraceText.ParseAccepts | performance/gem5/util/encode_inst_dep_trace.py:147-192 | a line is read if and only if it has three sections, the first with numbers in range around the type and as many items as the type needs, the others with nothing but numbers in range and empty items |
| TraceText.TypeNames | performance/gem5/util/decode_inst_dep_trace.py:142-171 | the types 0 to 3 are INVALID, LOAD, STORE and COMP in both directions, and 1 and 2 are memory accesses |
| TraceText.LoadLine | performance/gem5/util/decode_inst_dep_trace.py:157-203 | the line of one load in full, and what it is read as |
| TraceText.DepsRoundTrip | performance/gem5/util/encode_inst_dep_trace.py:181-192 | a printed dependency list of any length comes back in order |
| TraceText.ParsePrinted | performance/gem5/util/encode_inst_dep_trace.py:147-192 | what parsing any printed line amounts to, including INVALID types and irregular optional fields |
| TraceText.TextRoundTrip | performance/gem5/util/decode_inst_dep_trace.py:157-203 | a printed line parses back to the record with pc and weight defaults if and only if address, size and flags are present exactly for LOAD and STORE, the type is LOAD, STORE or COMP, and there is no virtual address or address space |
| CopyrightDates.RunsCover | performance/gem5/util/find_copyrights.py:175-199 | the runs the loop builds cover exactly the given years, in increasing order with a missing year between any two |
| CopyrightDates.RunsAreFewest | performance/gem5/util/find_copyrights.py:175-199 | no shorter list of intervals covers exactly the same years |
| CopyrightDates.DateStr | performance/gem5/util/find_copyrights.py:175-199 | prints the runs of the set, and the text reads back as the same set if and only if every two consecutive years of it have four digits |
| CopyrightDates.ProcessDates | performance/gem5/util/find_copyrights.py:98-116 | the loops collect exactly the years that the comma-separated pieces denote, negative ones included, skipping what int does not take; years and ranges of four-digit years with any spaces around commas and dashes are read as the years they name |
| CopyrightDates.SpacedDates | performance/gem5/util/find_copyrights.py:98-116 | the same for every list of years and ranges and every choice of spaces |
| CopyrightDates.PieceReading | performance/gem5/util/find_copyrights.py:98-114 | a printed run is read as its years, or loses its last year when its years do not have four digits |
| CopyrightDates.DatesRoundTrip | performance/gem5/util/find_copyrights.py:98-199 | the same equivalence for any separated runs |
| PortBinding.HalfMeansAll | performance/gem5/configs/example/read_config.py:343-346 | when no pair is made twice, the half-count check passes if and only if exactly one direction of every connection was made |
| PortBinding.PassIsSound | performance/gem5/configs/example/read_config.py:321-346 | for any order of the list, the k-th binding of every port has index k, and the count check passes if and only if every connection is bound exactly once |
| PortBinding.BindPorts | performance/gem5/configs/example/read_config.py:300-346 | the binder's loop makes the connections of that pass and raises the exception exactly when not every connection is made |
| PortBinding.GreedyIsBest | performance/gem5/configs/example/read_config.py:321-346 | optimality of the pass: it binds everything if and only if some choice of one direction per connection, taken in the list's order, uses every port in index order and no connection joins a port to itself |
| PortBinding.ConnectionOrder | performance/gem5/configs/example/read_config.py:157-160 | the order of the list is a strict total order on connections in which the object name of the first port decides before its port name, that before its index, and all of them before the second port |
| PortOrder.TryMakes | performance/gem5/configs/example/read_config.py:321-330 | at its place in the list a connection is made if and only if it was made before or every connection at a lower index of its two ports was |
| PortOrder.WaitsNotMade | performance/gem5/configs/example/read_config.py:321-330 | the first connection of a chain of waiting ones is not made by the place the chain starts from |
| PortOrder.LateWaits | performance/gem5/configs/example/read_config.py:321-330 | and every connection that is not made by a place but later heads such a chain |
| PortOrder.CyclicNotMade | performance/gem5/configs/example/read_config.py:321-330 | a connection that leads to a circle of waiting ones is never made |
| PortOrder.MissingMeansBlocked | performance/gem5/configs/example/read_config.py:321-346 | if connections stay unmade, there is a circle or a chain behind the last place of one |
| PortOrder.PassCompletes | performance/gem5/configs/example/read_config.py:321-346 | from any start with nothing made, the pass over a list binds every connection exactly once if and only if indices have no gaps, nothing waits in a circle and nothing is blocked by such a chain |
| PortOrder.BinderCompletes | performance/gem5/configs/example/read_config.py:321-346 | the same for the binder's own counters and any order of its list: the exact condition, on the connections and their places alone, for the comment's `exactly one of each pair` |
| PortBinding.PassIsNotComplete | performance/gem5/configs/example/read_config.py:321-330 | a well-formed sorted list whose three connections can be made in index order but of which the pass makes two: sorting alone does not make one of each pair bindable |
| CheckpointAggregator.TagsDiffer | performance/gem5/util/checkpoint_aggregator.py:56-66 | the zero-filled numbers have one width and differ for different checkpoints |
| CheckpointAggregator.TagMeans | performance/gem5/util/checkpoint_aggregator.py:56-66 | a tag is the checkpoint's number with zeros in front, as wide as the largest number |
| CheckpointAggregator.MentionsMeans | performance/gem5/util/checkpoint_aggregator.py:65 | a section is a processor's if and only if its name holds the letters cpu in a row |
| CheckpointAggregator.RenameMeans | performance/gem5/util/checkpoint_aggregator.py:66 | the first cpu of a name, and so each in turn, gets the tag behind it, and nothing else changes |
| CheckpointAggregator.CpuSectionMeans | performance/gem5/util/checkpoint_aggregator.py:65-77 | a processor section keeps its items, but for the address, which moves by 4096 bytes for every page before, and the process number of a file-descriptor section |
| CheckpointAggregator.SectionsMerged | performance/gem5/util/checkpoint_aggregator.py:64-89 | every processor section of every checkpoint is in the merged configuration, and so is every other section of the last one but for those written anew |
| CheckpointAggregator.PagesMeans | performance/gem5/util/checkpoint_aggregator.py:95 | the page count of a checkpoint is the pagePtr of its system section |
| CheckpointAggregator.RenameInjective | performance/gem5/util/checkpoint_aggregator.py:66 | a renamed section name determines the old name and, if it mentions a cpu, the checkpoint number |
| CheckpointAggregator.MergedNamesDistinct | performance/gem5/util/checkpoint_aggregator.py:58-136 | no two sections of the merged configuration share a name, if none did within a checkpoint |
| CheckpointAggregator.ImagesSize | performance/gem5/util/checkpoint_aggregator.py:99-118 | the memory file has as many bytes as its page count says if and only if no image is shorter than its pages |
| CheckpointAggregator.AddressFollowsPage | performance/gem5/util/checkpoint_aggregator.py:95-112 | a byte of checkpoint i that its image holds lands as many pages further on as the checkpoints before it have, if their images are whole |
| CheckpointAggregator.PaddrFollowsPage | performance/gem5/util/checkpoint_aggregator.py:65-74 | the moved physical address of any processor section, read in the merged memory, gives the byte the old address gave in its own checkpoint, if the images before it are whole |
| CheckpointAggregator.MergeSections | performance/gem5/util/checkpoint_aggregator.py:64-89 | the section loop moves, renames, keeps or drops each section by its kind; the tick it returns is at least the one before and every curTick of a Globals section, and one of them |
| CheckpointAggregator.CopyPages | performance/gem5/util/checkpoint_aggregator.py:102-109 | the page loop copies the first pages of the image, or all of a short one |
| CheckpointAggregator.Pad | performance/gem5/util/checkpoint_aggregator.py:118-126 | the fewest pages of 4096 characters '0' that reach the requested size are added |
| CheckpointAggregator.Aggregate | performance/gem5/util/checkpoint_aggregator.py:41-136 | the two files written are those of the specification, and the configuration's section names are distinct; its last section is Globals with a curTick that is at least 0 and every curTick read and is one of them or 0, the one before is system with the total page count before padding as pagePtr and the number of checkpoints as nextPID, and the memory store's range_size is the size of the memory file when no image is short |

## Left out

- Floating point: probabilities are exact reals; `log`, `exp`, `pow` and `printf` rounding are not modelled.
  The sum of logarithms in `calc_binomial_prob` is the product it stands for, and TRH* is the number its
  quotient of logarithms truncates to, stated by inequalities, without the conversion to 32 bits.
- Randomness: a draw is an arbitrary decision, or an item of an exactly weighted list.
- LossTable.Analysis.CalcBinomialProb: asks for arguments on which the program's 32-bit loops end; on
  others the program never returns, and there is nothing to ensure.
- LossTable.Analysis.Init: asks likewise for a window of at least 16 and at most 2^32 - 2 activations, and
  for an insertion probability strictly between 0 and 1, because the program takes the logarithms of it and
  of its complement.
- LossTable.Analysis.PrintLossProb: asks for such a window, and leaves out the TRH* printed beside each loss
  probability, which is the program's own copy of the `get_trh_star` modelled in Reliability.
- RecursionBound.RecursionOverstates: capacity 16 is not part of it, because the program's recursion reads
  the unfilled cell there; what it should read is in WholeWindowsBound.
- Tracker.Tracker.constructor: asks for a capacity of at least one and at most 2^31, because the program
  computes indices modulo the capacity in 32 bits; the 64-bit counters do not overflow.
- MonteCarlo.SimMonteCarlo: asks for a window of at most 1024 activations, the length of the counter arrays.
- `tracker_print_stats`, which repeats formulas modelled elsewhere.
- The printing loops of the reliability program, its loss-probability constants and the resetting of globals.
- MersenneTwister.MTRand.SeedArray: asks for keys in a separate array of fewer than 2^31 words; the program's
  loop counter is a signed 32-bit integer.
- `randInt(n)` and `randNorm` (rejection loops on random draws), the real-valued draws, seeding from the
  clock or the operating system, copying and the stream operators.
- Downgraders: their documentation wants a removed dependency gone where `ready` wants it present.
- The upgraders' effect on a checkpoint's contents, files, backups and the configuration parser.
- CheckpointUpgrader.Registry.Add: takes scripts whose variables already have the types the constructor
  checks for.
- PipeView.Viewer.ProcessTrace: starts from lines whose fields are already read; the skipped header lines,
  the parsing of trace lines, the collection of an instruction's fields from several lines, the mark on instructions that do not retire and the drawing of timelines are
  left out.
- Framing.FramesRoundTrip: message lengths are bounded by 2^63 - 1, the largest length the script's language
  has.
- Protobuf field serialisation, compressed and plain file access, packet headers and counters of the trace
  scripts.
- TraceText.ParseLine: numbers have the documented syntax of Python 2's `int` and `long` in base ten:
  surrounding whitespace, one sign, and for `long` a final L; whitespace is that of ASCII.
- CopyrightDates.ProcessDates: numbers as for the trace parser; the search for copyright blocks and the
  regular expressions around the dates are left out.
- CopyrightDates.DateStr: the set is not empty, as the program's first `pop` needs.
- PortBinding.BindPorts: takes a list without duplicates and without ends linked to themselves, as the
  program's enumeration of ports makes it; the order is the one that `PortConnection.__cmp__` defines, and
  the last loop, which only passes each connection that was made on to the simulator, is left out.
- Loading configurations and creating simulator objects in `read_config.py`.
- CheckpointAggregator.Aggregate: takes checkpoints whose page counts, ticks and physical addresses are
  numbers and whose last configuration has the memory store's section, because the script stops with an
  exception otherwise; configuration syntax and compression are left out.
- All other gem5 configurations, build scripts, generated parser tables, hooks and viewers: wiring of
  components whose behaviour is not shown.
