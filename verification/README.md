# Hypha control plane: a verified model

Hypha is a network of workers that lend compute to schedulers. This project models the parts of its
control plane in which state, time and interleaving matter, and proves what they promise:

- **Worker side.** The reservation table, the lease ledger and the lease manager that couples them
  (`WorkerResources`, `HyphaLeases`, `LedgerHistory`, `LeaseManager`); the same operations cut into their
  lock-held sections and run by any number of tasks (`LeaseProtocol`, `LeasePruning`, `LeaseOutcomes`), and how
  the two views agree (`LeaseRefinement`); the arbiter that grants a batch of requests (`Arbiter`); the product
  order on resource vectors (`HyphaResources`) and the score that ranks requests and offers (`Scoring`).
- **Scheduler side.** The lease renewal loop as a timed system, alone and against the interleaved worker
  (`LeaseRenewal`, `RenewalProtocol`); the choice of offers
  (`Candidates`, `OfferAggregator`); the worker pool, alone and with its allocator (`Pool`, `PoolAllocation`);
  the dispenser of data slices (`SliceTracking`, `SliceHistory`); the running mean (`Statistics`) and the
  projection of when a round ends (`Simulation`).
- **Shared plumbing.** Length-framed streams (`Framing`), time- and count-bounded batching (`Batching`)
  and the text form of telemetry attributes (`Attributes`).

`Common`, `StableSort`, `Sequences`, `Arithmetic` and `Wrappers` are support. `dafny verify dfyconfig.toml` checks everything.

## How the model is built

Objects that the source updates in place are classes whose methods follow the source statement by
statement; each method's contract equates the new state with a function of the old one, and the theorems
are about that function and about runs of it. Where tasks share tables behind separate locks, one step is
one lock-held section and the theorems hold for every interleaving.

- Floating-point numbers (resources, prices, scores) are reals: no rounding, no NaN.
- UUIDs are fresh natural numbers passed in as parameters; peers are natural numbers with their order.
- Clock readings are parameters (nanoseconds). The iteration order of a hash map is an arbitrary choice.
- What the network, the allocator and a timer answer are parameters of the step that asks.
- Integer widths, wrap-around and saturation are written out in `Statistics` and `Simulation`; Rust's
  truncating division is `Statistics.TruncDiv`.

## What the proofs found

- **Over-commitment.** Capacity is never exceeded if and only if callers make no negative request that fits it:
  reserving one makes room that its release later takes away (`WorkerResources.NoOvercommitExactly`).
- **Pruning race.** `proceed` removes by identifier the leases it listed as expired. A renewal that lands in
  between is acknowledged and then lost. The removal takes a lease before its current timeout if and only if the
  lease was renewed after the listing and its last renewal has not run out at the time of removal
  (`LeasePruning.PrunedUnexpiredExactlyIfRenewed`), and every lease of every state can meet this fate
  right after a renewal for any duration (`LeasePruning.RenewedLeaseCanBePruned`). A lease that is renewed on
  schedule is on no prune's list (`RenewalProtocol.RenewedLeaseIsNeverListed`).
- **Renewal margin.** A lease renewed on schedule survives every run if and only if one-way delays stay below
  a quarter of the lease duration (`LeaseRenewal.RenewalKeepsLeaseAliveExactly`).
- **Filter of the arbiter.** `>` on resource vectors is a partial order, so a request that is incomparable with
  the worker passes the filter; it is covered exactly if it is comparable (`Arbiter.EligibleFitsExactlyIfComparable`).
- **Slice stealing.** The comment and log line say that slices are taken from the slowest peer; the code takes
  from an owner with the *fewest* open slices, and the model follows the code. A theft can spare the slowest peer
  (`SliceHistory.TheftSparesTheSlowest`); it hits the slowest exactly if all owners with open slices have equally
  many (`SliceTracking.StolenFromSlowestExactly`).
- **Departures.** A departure can re-open a slice that another worker took over
  (`SliceHistory.DepartureReopensStolenSlice`). It does so if and only if the slice last handed to the worker that
  leaves is processed and now held by a different worker (`SliceHistory.DepartureReopensTakenOverExactly`).
- **No slices.** `next` can hand something out if and only if there are slices; without any, a restart opens
  nothing, and the source recurses for ever (`SliceTracking.AlwaysServable`).
- **Limit on offers.** A comment says that the conditions for answering are checked again after each offer; the code
  checks the maximum of offers once a poll, and one poll can take any number more (`OfferAggregator.OnePollPassesLimit`).
  It does so exactly if more offers are ready than the maximum has left (`OfferAggregator.LimitHoldsExactly`).
- **Pool.** If an allocation brings back the peer of a current member, the first exit of that peer removes both
  members while one handle still runs; two ticks and an exit of a new pool suffice (`Pool.RepeatedPeerRun`). Members and
  running handles correspond throughout a run if and only if every exit meets exactly one member of its peer
  (`Pool.MatchedThroughoutExactly`). The repository's own allocator never repeats a peer within one batch
  (`PoolAllocation.PoolWithAllocator`), but it can bring back a member's (`PoolAllocation.AllocatorRepeatsPeer`).
- **Pull requests.** The sender does not check the size limit of the receiver: a request of 1 MiB or more is written
  and then dropped (`Framing.RequestArrivesExactly`).
- **Counting reader.** A read into an empty buffer is reported as a premature end (`Framing.PrematureEndExactly`).
- **Running mean.** Times of 2^63 or more can throw the mean out of the range of all samples
  (`Statistics.LargeSampleLeavesRange`, `Statistics.LargeMeanLeavesRange`). An update that does not panic stays between
  the mean and the time per sample, whatever 64-bit words they are, if and only if their difference fits a signed word
  or its complement to 2^64 is less than the new number of samples (`Statistics.BlendStaysBetweenExactly`).
- **Attributes.** Printing loses attributes whose keys or values contain separators or outer blanks; parsing
  undoes printing exactly for the others (`Attributes.ParsePrintExactly`).

## Model

| member | source | states |
|---|---|---|
| HyphaResources.TryFoldExact | crates/resources/src/lib.rs:123-143 | The fold over fields answers less, equal or greater exactly if every field agrees with that answer and one is strict |
| HyphaResources.ComparisonIsProductOrder | crates/resources/src/lib.rs:123-143 | `>=` and `>` are exactly the order on all four fields and its strict part; no answer exactly on incomparable vectors |
| HyphaResources.TotalExtract | crates/resources/src/lib.rs:145-155 | The sum over a table is independent of the order of its entries |
| HyphaResources.TotalInsert | crates/resources/src/lib.rs:145-155 | A fresh entry adds exactly itself to the sum |
| HyphaResources.TotalIsFieldwise | crates/resources/src/lib.rs:145-155 | The sum of a table has in each field the sum of that field |
| Scoring.ScoreOfOneKind | crates/resources/src/lib.rs:170-181 | On an amount of one kind of resource alone, score times weighted amount is the price, for each of the four kinds |
| Scoring.ScoreOfSum | crates/resources/src/lib.rs:170-181 | Weighted units of different vectors add up, so that the scores on two vectors and on their sum are in the harmonic relation |
| Scoring.ScoreIsLinear | crates/resources/src/lib.rs:170-181 | The score is proportional to the price, and zero where no resource has a positive weighted amount |
| Scoring.HigherPriceScoresHigher | crates/resources/src/lib.rs:170-181 | For resources that can be charged for, one price scores below another if and only if it is lower |
| Scoring.MoreResourcesScoreLower | crates/resources/src/lib.rs:170-181 | With weights and price not negative, the score on resources that can be charged for does not rise when any of them grow |
| Scoring.DefaultScores | crates/resources/src/lib.rs:184-193 | By default a GPU costs what 25 CPUs cost, and a CPU what 10 units of memory or 100 of storage cost |
| WorkerResources.StaticResourceManager.ComputeResources | crates/worker/src/resources.rs:54-57 | What is available is the capacity less the sum of all reservations |
| WorkerResources.FitsExactly | crates/worker/src/resources.rs:54-76 | A request fits what is available if and only if all reservations together with it are within the capacity in each field |
| WorkerResources.StaticResourceManager.Reserve | crates/worker/src/resources.rs:59-79 | Granted exactly if the request fits what is available; otherwise the table is untouched |
| WorkerResources.StaticResourceManager.Release | crates/worker/src/resources.rs:81-91 | Returns and removes the reservation, or reports it unknown |
| WorkerResources.ApplyKeepsWithin | crates/worker/src/resources.rs:59-91 | A grant of a non-negative request, or a release, keeps the sum of reservations within capacity |
| WorkerResources.RunKeepsWithin | crates/worker/src/resources.rs:59-91 | So does every run in which callers make only requests that are non-negative or too large to be granted |
| WorkerResources.NegativeRequestOvercommits | crates/worker/src/resources.rs:67-76 | If callers may make a negative request that fits, a run of three sections over-commits |
| WorkerResources.NoOvercommitExactly | crates/worker/src/resources.rs:54-91 | Whatever callers may request besides non-negative resources, no run over-commits if and only if the rest is too large ever to be granted |
| HyphaLeases.Ledger.Insert | crates/leases/src/lib.rs:67-83 | Adds a lease that expires one duration from now |
| LedgerHistory.LookupExactly | crates/leases/src/lib.rs:67-114 | After any operations a lookup finds a lease exactly if it was inserted and not removed since, with the timeout its latest insertion or renewal set |
| HyphaLeases.Ledger.Remove | crates/leases/src/lib.rs:94-101 | The removed lease, or not found |
| HyphaLeases.Ledger.Renew | crates/leases/src/lib.rs:103-114 | The timeout counts from now, whatever was left of the old one; an unknown lease changes nothing |
| HyphaLeases.Ledger.List | crates/leases/src/lib.rs:116-118 | Every lease once, in some order |
| HyphaLeases.Ledger.ListExpired | crates/leases/src/lib.rs:121-130 | Exactly the expired leases, each once, in some order |
| LeaseManager.ResourceLeaseManager.Request | crates/worker/src/lease_manager.rs:96-121 | A lease and its reservation come together or not at all |
| LeaseManager.ResourceLeaseManager.Get | crates/worker/src/lease_manager.rs:123-125 | The stored lease, or not found |
| LeaseManager.ResourceLeaseManager.GetByPeer | crates/worker/src/lease_manager.rs:127-141 | Finds some lease of the peer exactly if there is one |
| LeaseManager.ResourceLeaseManager.Remove | crates/worker/src/lease_manager.rs:143-154 | The lease and its reservation go together; never an unknown reservation while the tables are linked |
| LeaseManager.ResourceLeaseManager.Renew | crates/worker/src/lease_manager.rs:156-165 | Moves the timeout only |
| LeaseManager.ResourceLeaseManager.Proceed | crates/worker/src/lease_manager.rs:167-184 | Removes exactly the expired leases and what they hold, and returns them |
| LeaseManager.LinkedWithout | crates/worker/src/lease_manager.rs:167-184 | Dropping leases with their reservations keeps the remaining tables linked |
| LeaseProtocol.StepKeepsOneHolder | crates/worker/src/lease_manager.rs:96-184 | Each lock-held section keeps every live reservation with exactly one holder, in the ledger or in a task |
| LeaseProtocol.StepKeepsHistory | crates/worker/src/resources.rs:59-91 | Each section keeps the issued reservations split into live and released once |
| LeaseProtocol.StepKeepsOwnership | crates/worker/src/lease_manager.rs:96-184 | Each section keeps every lease with the peer it was granted to, for as long as its identifier lives |
| LeaseProtocol.RunKeepsInv | crates/worker/src/lease_manager.rs:96-184 | All three hold in every interleaving |
| LeaseProtocol.ReservationsPartitioned | crates/worker/src/lease_manager.rs:96-184 | Reservations are the disjoint union of those in the ledger, those reserved but not yet inserted and those removed but not yet released |
| LeaseProtocol.ReleasedExactlyOnce | crates/worker/src/lease_manager.rs:143-184 | No release meets an unknown reservation, none happens twice, and a quiescent worker leaks nothing |
| LeaseProtocol.RenewalStaysWithOwner | crates/worker/src/arbiter.rs:204-223 | A renewal that passed the owner check renews a lease of that peer, whatever ran in between |
| LeaseProtocol.ReserveKeepsWithin | crates/worker/src/resources.rs:67-76 | The check under the write lock keeps the table within capacity whatever the first check saw |
| LeaseProtocol.NeverOvercommitted | crates/worker/src/resources.rs:54-91 | With non-negative requests no reachable state of concurrent tasks exceeds capacity, in any field |
| LeaseProtocol.WholeWorkerIsExclusive | crates/worker/src/arbiter.rs:457-470 | If all requests ask for the whole non-zero worker, at most one lease and one reservation exist at a time |
| LeaseOutcomes.PruneFinishesItsList | crates/worker/src/lease_manager.rs:167-184 | In every interleaving, a prune that reports its result has seen every lease it had listed leave the ledger, those that other tasks removed first included, and reports only listed leases |
| LeaseOutcomes.PruneAdvances | crates/worker/src/lease_manager.rs:167-184 | Until it has finished a prune can always run a section, and each brings it closer to its end |
| LeaseOutcomes.RejectedExactly | crates/worker/src/resources.rs:59-79 | Either check of a request rejects it exactly if it does not fit at that moment, and a rejection changes no table |
| LeaseOutcomes.CheckedRenewalAnswers | crates/worker/src/lease_manager.rs:156-165 | A renewal past its owner check moves the timeout, or reports a lease that has gone since as missing and brings nothing back |
| LeasePruning.RunKeepsTracked | crates/worker/src/lease_manager.rs:167-184 | In every run each listed copy was expired when listed, and its lease if still stored is that copy or a later renewal |
| LeasePruning.LeaseFollowsRenewals | crates/worker/src/lease_manager.rs:143-184 | A lease that survives a run differs from before by the timeout of the last renewal in it, and by nothing else |
| LeasePruning.QueueIsFromSnapshot | crates/worker/src/lease_manager.rs:167-184 | A pruning task works through the copies of its own listing, whatever runs in between |
| LeasePruning.PrunedUnexpiredExactlyIfRenewed | crates/worker/src/lease_manager.rs:167-184 | A lease is pruned before its current timeout if and only if it was renewed after the listing and its last renewal has not run out at the removal; it differs from the listed copy exactly if it was renewed |
| LeasePruning.PruningRunSplits | crates/worker/src/lease_manager.rs:167-184 | Every run that is about to prune contains the listing to which that result applies |
| LeasePruning.RenewedLeaseCanBePruned | crates/worker/src/lease_manager.rs:156-184 | From any state any lease can be pruned right after a renewal, for whatever duration, was acknowledged |
| LeaseRefinement.SoloRequest | crates/worker/src/lease_manager.rs:96-121 | The sections of one request without interference have the effect of the manager's contract |
| LeaseRefinement.SoloRemove | crates/worker/src/lease_manager.rs:143-154 | So have those of a removal, on all three outcomes |
| LeaseRefinement.SoloRenew | crates/worker/src/arbiter.rs:204-223 | An owner-checked renewal without interference moves the timeout of a lease of that peer and of no other |
| LeaseRefinement.SoloPrune | crates/worker/src/lease_manager.rs:167-184 | The removals of a prune without interference take all listed leases and what they hold |
| LeaseRefinement.SoloProceed | crates/worker/src/lease_manager.rs:167-184 | So a whole prune removes and returns exactly the expired leases, as the manager's contract says |
| LeaseRenewal.EventKeepsInTime | crates/scheduler/src/worker.rs:120-143 | Below a quarter of the lease, every send, arrival and reply keeps the next renewal ahead of the timeout |
| LeaseRenewal.RunKeepsInTime | crates/scheduler/src/worker.rs:92-143 | So does every run |
| LeaseRenewal.QuarterDelayExpires | crates/worker/src/arbiter.rs:28-30 | With delays of a quarter or more some run exposes the lease to pruning |
| LeaseRenewal.RenewalKeepsLeaseAliveExactly | crates/scheduler/src/worker.rs:92-143 | No run exposes the lease to pruning if and only if one-way delays are below a quarter of the lease |
| LeaseRenewal.SleepsTwoThirds | crates/scheduler/src/worker.rs:126-143 | The loop sleeps two thirds of what is left of the lease, rounded down by less than two nanoseconds, and four seconds if the lease has run out when the reply arrives |
| LeaseRenewal.LossEndsTheLoop | crates/scheduler/src/worker.rs:120-152 | Of all events only a renewal that finds no lease ends the loop, and it does not start again |
| RenewalProtocol.ActKeepsSchedule | crates/worker/src/lease_manager.rs:96-184 | Each lock-held section of any task, and each act of the renewal loop, is an event of the timed system |
| RenewalProtocol.RenewedLeaseIsNeverListed | crates/worker/src/arbiter.rs:204-223 | With one-way delays below a quarter of the lease, a lease renewed amid any interleaved tasks stays in the ledger and on no prune's list |
| Arbiter.Arbiter.RankRequests | crates/worker/src/arbiter.rs:403-449 | Keeps the eligible requests of the batch, best score first |
| Arbiter.Arbiter.GrantOne | crates/worker/src/arbiter.rs:451-477 | One lease and one matching offer if the request fits; otherwise nothing changes |
| Arbiter.Arbiter.GrantRanked | crates/worker/src/arbiter.rs:451-504 | Requests a lease for each request in turn |
| Arbiter.Arbiter.ProcessRequests | crates/worker/src/arbiter.rs:396-505 | The tables and offers after a batch are those of the greedy selection over the ranked requests |
| Arbiter.RankedOrder | crates/worker/src/arbiter.rs:443-449 | Scores descend, ties keep arrival order, and nothing eligible is lost or added |
| Arbiter.HigherBidFirst | crates/worker/src/arbiter.rs:443-449 | Among requests for the same resources the higher bid is ranked first, if these can be charged for |
| Arbiter.EveryEligibleIsRanked | crates/worker/src/arbiter.rs:405-447 | Every request of the batch whose executors are all supported, whose bid is at or above the floor and whose resources do not strictly exceed the worker is ranked, with its score |
| Arbiter.GrantEachIsGreedy | crates/worker/src/arbiter.rs:451-470 | Asking the lease manager for each in turn grants exactly the greedy selection |
| Arbiter.GrantAllKeeps | crates/worker/src/arbiter.rs:467-477 | n grants add exactly n reservations, leases and offers and keep all the others |
| Arbiter.GrantAllExactly | crates/worker/src/arbiter.rs:457-477 | The i-th grant has the i-th fresh identifiers; its reservation holds the offered resources, its lease belongs to the requesting peer, and its offer names lease, request and peer and expires with the lease |
| Arbiter.GreedyFits | crates/worker/src/resources.rs:67-76 | All grants of a batch together fit what was available |
| Arbiter.GreedyIsPriorityOptimal | crates/worker/src/arbiter.rs:449-470 | Any other selection that fits first differs from the greedy one by leaving out a request that was granted |
| Arbiter.GrantsAreEligible | crates/worker/src/arbiter.rs:405-447 | Conversely every grant is of a request of the batch whose executors are all supported, whose bid is at or above the floor and whose resources do not strictly exceed the worker |
| Arbiter.OffersArePricedFairly | crates/worker/src/arbiter.rs:420-477 | An offer names its lease, request and peer; a flexible one is exactly what was asked at the bid, a whole one the entire worker at the higher of the bid and its price; no bid is below the floor |
| Arbiter.WholeGoesToTheBest | crates/worker/src/arbiter.rs:457-470 | An idle non-zero worker offered as a whole goes to the top-ranked request alone |
| Arbiter.EligibleFitsExactlyIfComparable | crates/worker/src/arbiter.rs:432-441 | An eligible request fits the worker if and only if the two are comparable |
| Arbiter.EligibleMayNotFit | crates/worker/src/arbiter.rs:432-470 | Some eligible request is granted an offer that does not cover it |
| Statistics.RunningMean.Update | crates/scheduler/src/statistics.rs:29-41 | The new mean and sample count with the conversions of the source, its panics, and the wrap-around of builds without overflow checks |
| Statistics.AdvancedExact | crates/scheduler/src/statistics.rs:29-41 | Clear of the sign bit an update is a truncating step towards the sample, and never panics, in builds with and without overflow checks |
| Statistics.StepBetween | crates/scheduler/src/statistics.rs:29-41 | An update moves the mean towards the sample and never past it |
| Statistics.TruncatesTowardsZero | crates/scheduler/src/statistics.rs:35-37 | A step is as long down as up, and none is made within the number of samples |
| Statistics.FirstUpdates | crates/scheduler/src/statistics.rs:29-41 | An empty update changes nothing, and the first one sets the mean to the time per sample |
| Statistics.MeanWithinRange | crates/scheduler/src/statistics.rs:29-41 | The mean stays between the smallest and largest time per sample ever seen |
| Statistics.MeanDrift | crates/scheduler/src/statistics.rs:29-41 | After n single samples, n times the mean differs from their sum by at most n(n-1)/2 |
| Statistics.BlendIsModular | crates/scheduler/src/statistics.rs:35-37 | Without overflow checks an update adds the truncated part of the difference, both taken as 64-bit words |
| Statistics.BlendStaysBetweenExactly | crates/scheduler/src/statistics.rs:35-37 | For any 64-bit mean and time per sample, an update that does not panic stays between them if and only if their difference fits a signed word or its complement to 2^64 is less than the new number of samples; without overflow checks none panics |
| Statistics.LargeSampleLeavesRange | crates/scheduler/src/statistics.rs:35-37 | A sample of 2^63 after one instant update throws the mean beyond both |
| Statistics.LargeMeanLeavesRange | crates/scheduler/src/statistics.rs:29-41 | From a new mean, an update near 2^64 and then an instant one end outside both |
| Simulation.MinSet | crates/scheduler/src/simulation.rs:35-43 | All indices of the smallest next event, in ascending order |
| Simulation.Fire | crates/scheduler/src/simulation.rs:44-57 | Exactly the due workers make one update; work is conserved and the cap flag is right |
| Simulation.Project | crates/scheduler/src/simulation.rs:16-60 | Conservation, cap and overshoot bounds hold, each count is the closed form at the returned time, and that time is the least at which the data is covered or the cap reached |
| Simulation.CountIsCardinality | crates/scheduler/src/simulation.rs:34-58 | The closed form counts the updates that fall by a given time |
| Simulation.NotDoneBetween | crates/scheduler/src/simulation.rs:34-58 | Nothing is finished strictly between two rounds, which makes the returned time least |
| Simulation.DoneAtExit | crates/scheduler/src/simulation.rs:34-58 | The loop condition fails exactly when the data is covered or the cap reached by the closed form |
| Simulation.HeadroomFalls | crates/scheduler/src/simulation.rs:34-58 | Remaining headroom to the cap strictly falls with any update, even with empty batches |
| Candidates.CandidateList.TryInsert | crates/scheduler/src/allocator.rs:218-256 | Improves, appends, evicts or refuses as the list, its capacity and the diversity flag say |
| Candidates.CandidateList.SortOffers | crates/scheduler/src/allocator.rs:258-260 | Scores ascend, the offers are the same ones, and those of equal score keep their order |
| Candidates.BestIsLeast | crates/scheduler/src/allocator.rs:218-256 | The reference: a peer's best offer is its first of least score, and exists for exactly the peers seen |
| Candidates.InsertionSelects | crates/scheduler/src/allocator.rs:218-256 | One more offer, accepted or refused, keeps the list the best selection of everything seen |
| Candidates.AfterSelects | crates/scheduler/src/allocator.rs:218-260 | So does every sequence of offers |
| Candidates.AfterSize | crates/scheduler/src/allocator.rs:218-260 | The list holds one entry per peer seen until it is full |
| Candidates.OnlineIsOffline | crates/scheduler/src/allocator.rs:218-260 | Distinct peers, each with the best it ever offered, and the i-th score has rank i among all peers' best, offers refused or evicted included |
| Candidates.DiverseRefusals | crates/scheduler/src/allocator.rs:218-256 | An offer is refused as no better exactly if its peer has one that scores no higher, and for lack of room exactly if the list is full of offers of other peers that score no higher |
| Candidates.PlainListIsBest | crates/scheduler/src/allocator.rs:218-256 | With diversity off, what is kept and what is dropped are together the offers seen, nothing dropped scores below anything kept, and something is dropped only if the list is full |
| OfferAggregator.GreedyOfferAggregator.PollNext | crates/scheduler/src/allocator.rs:335-431 | One poll over any ready offers, deadline and end of stream |
| OfferAggregator.GreedyOfferAggregator.ReceiveOffer | crates/scheduler/src/allocator.rs:366-418 | Counts the offer, drops it above the price limit, and resets the deadline when the list changed |
| OfferAggregator.GreedyOfferAggregator.ResetDeadline | crates/scheduler/src/allocator.rs:385-405 | The loop computes the deadline function |
| OfferAggregator.DeadlineIsEarliest | crates/scheduler/src/allocator.rs:385-405 | That deadline is no later than the hard deadline or 100 ms before any unexpired candidate runs out, except that it is not before now; one of these is met with equality |
| OfferAggregator.DeadlineNeverPasses | crates/scheduler/src/allocator.rs:355-405 | In every run, until it answers, the deadline is at most the hard deadline and, for every candidate unexpired at the last change, that clock reading or 100 ms before the candidate runs out, and equals one of them; a poll at the deadline answers |
| OfferAggregator.AnsweredByHardDeadline | crates/scheduler/src/allocator.rs:355-361 | A poll at the hard deadline or later finds or leaves the aggregator answered |
| OfferAggregator.ReceiveCollects | crates/scheduler/src/allocator.rs:366-418 | One offer keeps the collection going unless it comes from the last new peer desired |
| OfferAggregator.RunIsSound | crates/scheduler/src/allocator.rs:335-431 | At most one result in any run: pending before, finished after |
| OfferAggregator.CompleteMeans | crates/scheduler/src/allocator.rs:335-431 | The result has one offer for every acceptable peer seen, each its best, in order of score and within the price limit |
| OfferAggregator.AcceptableExactly | crates/scheduler/src/allocator.rs:369-382 | Considered are exactly the offers at or below the price limit, each with its score |
| OfferAggregator.AnswersTheSelection | crates/scheduler/src/allocator.rs:335-428 | With diversity on or off, every answer is the list's selection from the offers recorded; the end of the stream always answers, with or without candidates, and so does a poll after the maximum of offers, without taking another |
| OfferAggregator.LowerPriceFirst | crates/scheduler/src/allocator.rs:258-260 | In an answer, offers of the same resources come in order of price, if these can be charged for |
| OfferAggregator.AnswersAtTheLastPeer | crates/scheduler/src/allocator.rs:366-418 | Short of the deadline and the end, the arrivals of one poll make it answer if and only if the desired number of acceptable peers is reached, at the offer that brought the last of them |
| OfferAggregator.RunAnswersAtTheLastPeer | crates/scheduler/src/allocator.rs:335-431 | Over all polls of a run short of the deadline, the end and any limit on offers, it has answered if and only if the acceptable offers that arrived come from the desired number of peers; the answer selects from the shortest part of them with that many |
| OfferAggregator.LimitHoldsExactly | crates/scheduler/src/allocator.rs:345-422 | A poll that does not answer takes more offers than the maximum if and only if more are ready than the maximum has left |
| OfferAggregator.OnePollPassesLimit | crates/scheduler/src/allocator.rs:345-422 | One poll below the maximum takes any number of offers beyond it when they are above the price limit |
| OfferAggregator.NothingDesiredWaits | crates/scheduler/src/allocator.rs:366-418 | Asked for no offers it answers only at the deadline, the end or a limit on offers, whatever arrives |
| OfferAggregator.NewAggregatorAnswers | crates/scheduler/src/allocator.rs:304-431 | All of this for a new aggregator and any polls: one answer at most, complete, and exactly when due |
| Pool.WorkerPool.Tick | crates/scheduler/src/pool.rs:268-375 | One tick of the reconciliation: grace period, then allocation up to the target |
| Pool.WorkerPool.Join | crates/scheduler/src/pool.rs:315-365 | Publishes the sorted membership with the batch, watches each handle, announces each worker in allocation order |
| Pool.WorkerPool.Exit | crates/scheduler/src/pool.rs:378-387 | Drops every member of the peer and one running handle |
| Pool.StepKeepsConsistent | crates/scheduler/src/pool.rs:268-387 | Incremental sorting and dropping keep the membership equal to one stable sort of the workers alive |
| Pool.AllocatedWorkersJoin | crates/scheduler/src/pool.rs:298-375 | A tick below the target adds and announces every allocated worker once; a failed allocation, a full pool or an expired one changes no member |
| Pool.MembersAreTheAlive | crates/scheduler/src/pool.rs:265-391 | In every run members are the workers alive, by time of joining and then by peer, watchers the handles running, and joins are announced once each |
| Pool.AliveExactly | crates/scheduler/src/pool.rs:327-382 | A worker is alive exactly if it joined and no handle of its peer has completed since |
| Pool.SortTwice | crates/scheduler/src/pool.rs:348-352 | Re-sorting a sorted list after an append is sorting everything once |
| Pool.FilterSort | crates/scheduler/src/pool.rs:380-382 | Dropping members commutes with sorting |
| Pool.MembersAreWatched | crates/scheduler/src/pool.rs:331-382 | Every member has a running handle of its own, in every run |
| Pool.StepKeepsMatched | crates/scheduler/src/pool.rs:378-382 | Members and handles stay in correspondence exactly unless an exit takes several members with it |
| Pool.HandlesMatchMembers | crates/scheduler/src/pool.rs:331-382 | If no batch repeats a peer the correspondence is one to one throughout |
| Pool.MatchedThroughoutExactly | crates/scheduler/src/pool.rs:331-382 | Members and handles correspond throughout a run if and only if every exit meets exactly one member of its peer |
| Pool.RepeatedPeerLosesMember | crates/scheduler/src/pool.rs:378-382 | From any state with a repeated peer its next exit leaves a running handle without a member |
| Pool.RepeatedPeerRun | crates/scheduler/src/pool.rs:298-382 | A new pool gets there with batches no larger than asked for: two ticks that admit the same peer, then one exit |
| Pool.WithinTargetExactly | crates/scheduler/src/pool.rs:299-328 | The pool never exceeds its target if and only if no batch exceeds what was asked |
| Pool.SinceIsEarliest | crates/scheduler/src/pool.rs:271-296 | The start of the grace period is the first tick of the current unbroken stretch below the minimum |
| Pool.ExpiresExactly | crates/scheduler/src/pool.rs:271-296 | The grace period expires if and only if two ticks at least that far apart and all between saw too few members |
| Pool.NewPoolIsSound | crates/scheduler/src/pool.rs:254-391 | All of this for a new pool and any events |
| PoolAllocation.AllocationFits | crates/scheduler/src/allocator.rs:135-177 | An allocation has at most as many workers as asked for, of different peers |
| PoolAllocation.PoolWithAllocator | crates/scheduler/src/pool.rs:299-328 | With the repository's allocator a new pool never exceeds its target, and members match handles as long as no batch brings back a current member's peer |
| PoolAllocation.AllocatorRepeatsPeer | crates/scheduler/src/pool.rs:298-382 | Driven by the repository's allocator a new pool can admit the same peer twice and lose the member at the first exit |
| SliceTracking.SliceTracker.SlowPeer | crates/scheduler/src/tracker/slice.rs:66-76 | An owner with the fewest open slices, or none if all are processed |
| SliceTracking.SliceTracker.Next | crates/scheduler/src/tracker/slice.rs:50-103 | Hands out an own or unowned open slice, else a stolen one, else starts a round; it ends for one slice or more |
| SliceTracking.SliceTracker.RemoveWorker | crates/scheduler/src/tracker/slice.rs:105-114 | Leaves no slice and no entry of the peer and re-opens the slice last given to it |
| SliceTracking.AlwaysServable | crates/scheduler/src/tracker/slice.rs:57-103 | A peer finds a slice, after at most one restart, if and only if there are slices; without any a restart opens nothing |
| SliceTracking.PickIsOpen | crates/scheduler/src/tracker/slice.rs:79-89 | What is handed out was open |
| SliceTracking.StolenFromFewest | crates/scheduler/src/tracker/slice.rs:64-90 | A slice is stolen only if nothing else is open to the peer, and from an owner with the fewest open ones |
| SliceTracking.StolenFromSlowestExactly | crates/scheduler/src/tracker/slice.rs:64-90 | The victim has the most open slices if and only if all owners with open slices have equally many |
| SliceHistory.TheftSparesTheSlowest | crates/scheduler/src/tracker/slice.rs:64-90 | A reachable tracker in which the theft takes from the peer with fewer open slices |
| SliceHistory.HistoryIsRecorded | crates/scheduler/src/tracker/slice.rs:50-114 | In every run the owner of a slice is the peer last handed it that has not left, and the table names the slice last handed to each peer |
| SliceTracking.SliceAccounting | crates/scheduler/src/tracker/slice.rs:50-114 | Per slice: rounds plus its processed flag, plus departures that re-opened it, equal its hand-outs |
| SliceTracking.TrackerAccounting | crates/scheduler/src/tracker/slice.rs:50-114 | Rounds times slices plus processed slices equal hand-outs less the departures that flipped a flag |
| SliceTracking.FairHandOut | crates/scheduler/src/tracker/slice.rs:50-103 | Without departures no slice is two hand-outs ahead of another |
| SliceTracking.WholeRounds | crates/scheduler/src/tracker/slice.rs:50-103 | After b whole rounds every slice was handed out b times |
| SliceTracking.BlocksArePermutations | crates/scheduler/src/tracker/slice.rs:50-103 | Every aligned block of n hand-outs to any peers is a permutation of the n slices |
| SliceHistory.DepartureReopensExactly | crates/scheduler/src/tracker/slice.rs:105-114 | A departure re-opens a slice if and only if it is processed and the one last handed to the peer that leaves |
| SliceHistory.DepartureReopensTakenOverExactly | crates/scheduler/src/tracker/slice.rs:105-114 | It re-opens a slice of another worker if and only if the slice last handed to the peer is processed and held by a different worker, which the table shows before the call |
| SliceHistory.DepartureReopensStolenSlice | crates/scheduler/src/tracker/slice.rs:105-114 | A run in which a slice is taken over, re-opened by the departure of its former owner, and handed out again in the same round |
| SliceTracking.MatchedServesOwn | crates/scheduler/src/tracker/slice.rs:51-63 | While demand matches ownership every request is served from the peer's own slices |
| SliceTracking.CacheAffinity | crates/scheduler/src/tracker/slice.rs:51-99 | A round in which peers ask exactly as often as they own slices, in any order, steals nothing and keeps ownership |
| Batching.Batched.PollNext | crates/network/src/utils.rs:87-144 | The poll loop over the inner stream, the limit and the timer |
| Batching.PollMoves | crates/network/src/utils.rs:87-144 | What each answer of a poll means for buffer, timer and items, and when a batch may be short |
| Batching.NothingLost | crates/network/src/utils.rs:87-144 | In every run batches, buffer and waiting items are the input in order, batches hold one to limit items, the timer is armed exactly while something is buffered, and at the end the batches are the input |
| Batching.NothingLostFromStart | crates/network/src/utils.rs:73-144 | The same for a new adapter over a new stream |
| Batching.NothingOverdue | crates/network/src/utils.rs:94-141 | After a poll whatever stays buffered has waited less than the configured time |
| Batching.DrainsInChunks | crates/network/src/utils.rs:111-121 | A closed stream drains one full batch a poll, a shorter last one, and then ends |
| Framing.DecodeEncode | crates/network/src/stream_push.rs:80-85 | Reading a little-endian length gives back what was written |
| Framing.EncodeDecode | crates/network/src/stream_push.rs:80-85 | Every 8-byte header is the encoding of the length it is read as |
| Framing.LowBytesFirst | crates/network/src/stream_push.rs:80-85 | Bytes are read least significant first, each by its own value |
| Framing.FixedAsyncRead.PollRead | crates/network/src/utils.rs:178-209 | One poll of the counting reader, limited to what is still due |
| Framing.FixedAsyncWrite.PollWrite | crates/network/src/utils.rs:244-280 | One poll of the counting writer |
| Framing.WriteAnswers | crates/network/src/utils.rs:244-280 | A write that fits appends and reports exactly the bytes that the connection moves and lowers the count by them; a blocked or broken one changes nothing and says so |
| Framing.ReadAnswers | crates/network/src/utils.rs:178-209 | A read delivers as many bytes as arrive, are due and fit, and lowers the count by them; a blocked or broken one changes nothing and says so |
| Framing.ShutdownPassesExactly | crates/network/src/utils.rs:244-292 | The writer may shut down if and only if the bytes reported as written fill the frame, which is when a receiver of the wire gets a reader of exactly those bytes |
| Framing.WriteRefusedExactly | crates/network/src/utils.rs:255-260 | A write is refused if and only if it offers more than is left |
| Framing.PrematureEndExactly | crates/network/src/utils.rs:185-203 | A completed read reports a premature end exactly if bytes are due but none come or none fit, and the end of the stream exactly if none are due |
| Framing.WritesKeepFrame | crates/network/src/utils.rs:244-280 | However writes are cut up, the wire holds what was reported as written and the count is kept |
| Framing.WritesMoveEverything | crates/network/src/utils.rs:244-280 | Over any polls that offer no more than is left, everything that the connection moves is on the wire, reported and counted |
| Framing.WritesFinish | crates/network/src/utils.rs:244-292 | Buffers that are moved whole and fill the frame leave nothing due and all their bytes on the wire |
| Framing.ReadsAreExact | crates/network/src/utils.rs:178-209 | However reads are cut up, what is delivered is what is consumed and the count is kept |
| Framing.ReadsFinish | crates/network/src/utils.rs:178-209 | Enough completed reads into non-empty buffers deliver everything |
| Framing.OpenFrame | crates/network/src/stream_push.rs:125-133 | The length goes first on the wire, also when a pull is answered; if the connection fails the wire holds part of it and there is no writer |
| Framing.ReceiveFrame | crates/network/src/stream_push.rs:78-88 | A stream with a whole header becomes a reader of exactly that length; others are dropped |
| Framing.SendRequest | crates/network/src/stream_pull.rs:194-206 | The body of a pull request goes out with its length in front; if the connection fails the wire holds a prefix of that |
| Framing.AcceptPull | crates/network/src/stream_pull.rs:118-150 | The decoded body, or nothing if the stream is cut short, the length is at the limit or the body does not decode |
| Framing.FramingRoundTrip | crates/network/src/stream_pull.rs:57-70 | Once the writer may shut down, the reader decodes the length, delivers exactly the bytes written, and consumes nothing after them, under any chunking; into non-empty buffers it never meets a premature end |
| Framing.TruncationIsReported | crates/network/src/utils.rs:192-197 | A stream cut short never looks complete: it ends in an error |
| Framing.CutFrameIsNoticed | crates/network/src/stream_push.rs:80-87 | A frame cut anywhere is dropped exactly if cut within its header, and otherwise delivers a prefix and ends in an error under any chunking |
| Framing.RequestArrivesExactly | crates/network/src/stream_pull.rs:118-137 | A request arrives intact if and only if it is below 1,048,576 bytes; larger ones are dropped |
| Framing.AcceptedRequestWasSent | crates/network/src/stream_pull.rs:118-137 | Whatever is accepted as a request is one that could have been sent |
| Attributes.TryFrom | crates/telemetry/src/attributes.rs:53-73 | The parser loop computes the parse function |
| Attributes.Display | crates/telemetry/src/attributes.rs:39-47 | The printer loop computes the print function |
| Attributes.PrintsEveryEntry | crates/telemetry/src/attributes.rs:39-47 | Each attribute adds its key, an equals sign, its value and a comma, and no attributes print as nothing |
| Attributes.TrimExactly | crates/telemetry/src/attributes.rs:61-68 | Trimming removes exactly the outer blanks |
| Attributes.SplitJoins | crates/telemetry/src/attributes.rs:61-61 | The entries rejoin to the text and hold no comma |
| Attributes.ParseIsCompositional | crates/telemetry/src/attributes.rs:61-72 | Texts joined by a comma parse as the one followed by the other |
| Attributes.BlanksAreIgnored | crates/telemetry/src/attributes.rs:61-69 | An entry parses to its trimmed key and value whatever blanks surround them; without an equals sign its value is empty |
| Attributes.ParsePrintExactly | crates/telemetry/src/attributes.rs:39-73 | Parsing undoes printing if and only if keys are non-empty, trimmed and free of comma and equals sign, and values trimmed and free of comma |
| Attributes.PrintingNormalises | crates/telemetry/src/attributes.rs:39-73 | Printing what was parsed and parsing it again changes nothing, for every text that parses |
| Attributes.ParseFailsExactly | crates/telemetry/src/attributes.rs:61-67 | A text is refused if and only if an entry starts, after blanks, with the equals sign, and the first such entry is reported |

## Left out

- Floating-point rounding, NaN and infinities: numbers are reals, so a NaN request (which compares with nothing) is not modelled.
- `AddAssign` and `SubAssign` of resources: the same arithmetic as `Add` and `Sub`, in place.
- Transport: libp2p swarms, gossipsub, Kademlia, dialling, TLS and certificates; CIDR matching and address helpers of `utils.rs`.
- Job execution, connectors and executors: a job is only a source of lease removals.
- `batch_scheduler.rs` and `parameter_server.rs`, and the statistics and state maps kept beside the pool.
- JSON and CBOR: `Framing.AcceptPull` takes the decoder as a parameter.
- Wakers, pinning, task aborts and back-pressure of the join channel: polls and events are explicit steps.
- LeaseManager.ResourceLeaseManager.Proceed: run without interference its error branches cannot be reached; with interference they are steps of `LeaseProtocol`. The branch of `request` after a failing ledger insert is absent, because an insert never fails.
- LeaseRenewal.RenewalKeepsLeaseAliveExactly: the retry strategy is part of the one-way delay, and the fallback sleep of six seconds applies only to replies that arrive after their timeout.
- LeaseRenewal.LossEndsTheLoop: answers of failed or forbidden, and network errors that outlast the retries, also end the source's loop and are no events of the model.
- Statistics.MeanWithinRange: stated for histories clear of the sign bit. Step by step, `Statistics.BlendStaysBetweenExactly` covers all other means and times for sample counts below 2^63; counts of 2^63 and more are in the model of the update only.
- Statistics.MeanDrift: stated for single samples; a weighted update blends in one averaged step and is not a weighted mean, for which no such bound holds.
- Simulation.Project: the preconditions exclude the overflow of the first addition and of the summed batch sizes, which the source does not guard; the closed form and the least time need non-zero statistics and an unsaturated clock, and without them termination and conservation are still proved.
- SliceTracking.SliceTracker.Next: needs one slice or more, and the round counter is unbounded where the source has 32 bits.
- Pool.WorkerPool.Tick: the wait for the allocator is atomic, as no other branch of the loop runs meanwhile; peers are ordered as numbers where the source orders their bytes.
- OfferAggregator.GreedyOfferAggregator.ResetDeadline: the timer clock is read once for each change of the list, where the source reads it for each candidate.
- Batching.Batched.PollNext: after its end the inner stream keeps reporting the end, and the timer fires exactly at its deadline, without the millisecond granularity of the runtime.
- Framing.OpenFrame: the negotiation of a new stream is not modelled, and reading a header either completes or drops the stream.
- Attributes.Display: values are strings, which is all that parsing produces; other value types are printed through their text.
