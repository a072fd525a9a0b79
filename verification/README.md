# Verified model of chain-sync-watch

chain-sync-watch asks several blockchain indexers the same questions and records
where their answers differ. This project models the parts of it that hold state,
branch or compute, and proves what they promise:

- the comparison engine: what a run saves, as a list, and that the loops, maps and
  goroutines save exactly that list or a prefix of it (`EngineSpec`, `Engine`,
  `Findings`); what that says of the ports a run was given and nothing else (`RunSpec`);
  and what replaying a saved diff does (`Replay`);
- the parallel fetch under a shared budget, over every interleaving (`FanOut`,
  `FanOutRaces`), and the budget itself as a protocol of atomic steps on one store
  (`Budget`, `BudgetProtocol`), with the refunds told apart by the reservation they give
  back (`Reservations`);
- the pairwise tolerance loop and the judgement, as functions of the answers and not of
  any order (`Tolerance`, `Judgement`);
- block sampling, with the termination condition of rejection sampling (`Sampling`);
- what a raw string means: EIP-55 addresses, numerals, the holdings string and the other
  canonical renderings (`Address`, `Digits`, `Holdings`, `Extract`, `Metrics`);
- the run aggregate, its rows, and the way of a schedule to the runs it starts
  (`RunLifecycle`, `Serialize`, `Mapper`, `Pipeline`);
- the probe evaluator: window metrics, incidents and the evaluator itself
  (`WindowMetrics`, `Incidents`, `EvaluateWindow`), and what it decides as counts over the
  observation table (`Decisions`);
- call traces (`Trace`).

`Prelude` has the machine integers, `Sorting` the one order and the one sort that all
`sort.Slice` calls of the modelled files use. Each module is in the file of its name;
`dafny verify dfyconfig.toml` checks all of them.

A method follows the source's loops and branches and is proved against a function; the
lemmas say what the function means. Ranging over a Go map is a loop that takes the keys
in an arbitrary order. Goroutines are steps of a state machine run in an arbitrary
schedule. Results are stated over what goes in and comes out as well: over the ports of a
run, the configured policies, the observation table, the digits and bits of an address, the
fields of a frame. Ports (source answers, samplers, clocks, fresh ids, repository failures) are
parameters; source answers and samplers are functions of the query.

## Where the code and its documentation differ

The model follows the code.

- `time.Truncate` counts windows from January 1 of year 1, not from the Unix epoch as the
  comment on `currentKey` has it. The two agree exactly for windows that divide the
  distance between the two (`Budget.EpochPinnedExactly`); a week does not
  (`Budget.WeekNotPinned`).
- `Refund` uses the key of the window it runs in, not that of the reservation it gives
  back. Where each refund gives back a reservation of its own window, the counter is exact
  (`Reservations.OwnRefundsExact`). A refund that comes a window late takes units off a
  window that never granted them: from the empty store a run of five calls ends with one
  unit more granted than the limit (`Reservations.LateRunOvergrants`). What a window has
  out stays within its limit plus such foreign refunds
  (`Reservations.HeldStaysInLimits`), and it can pass the limit exactly when its counter
  already says less than what is out (`Reservations.CanPassExactly`).
- A source is unlimited only when window and limit are both zero
  (`Budget.UnlimitedExactly`); a zero limit on a positive window denies everything
  (`Budget.ZeroLimitDenies`).
- A source id repeated in `SourceTrust` takes the rank of its last position. "Descending
  priority" holds exactly for lists whose repeats do not reorder
  (`Judgement.TrustOrderExactly`).
- Thresholds trip at the value, not above it. A breach whose observed value equals the
  threshold is valid.
- `truncateObservations` sorts only when it cuts, so its result is in time order exactly
  when it was cut or came in order (`WindowMetrics.EvidenceSortedExactly`). The evidence of
  an incident is in order all the same, because the observation repository lists a window
  in time order (`Incidents.EvidenceInOrder`).
- Consecutive failures are said to use the most recent N observations regardless of time.
  Without a configured window the evaluator reads only the last 10 N seconds, so a slow
  probe never trips the threshold (`Incidents.SlowProbeNeverTrips`); the exact condition
  over the whole table is `Incidents.TripsOverTable`.
- The address-latest pass filters by category, so ERC-20 metrics are among its metrics
  too. Its results have no field for them, but they count as comparisons
  (`Findings.LatestPassCountsIdleMetrics`).
- A schedule's timezone is stored and read back but does not reach the scheduler: what is
  queued carries the cron expression alone (`Pipeline.TaskIgnoresTimezone`).
- The length of a block range does overflow, for the range of all 2^64 blocks
  (`Sampling.RangeLengthExactly`), and random sampling of that range yields nothing.
- A numeric tolerance reports a disagreement between equal raws when the raw is not a
  number, or the allowance is negative (`Tolerance.EqualRawsDisagree`); the judgement of
  such a diff trusts everyone.

## Model

| member | source | states |
|---|---|---|
| Engine.CollectSampled | internal/application/execute_run.go:614-638 | returns nothing when some plan fails, else the strictly byte-ascending list of the union of all samples |
| EngineSpec.CollectedByPlanSet | internal/application/execute_run.go:614-638 | the collected list depends on the set of plans only: reordering or repeating plans changes nothing |
| Engine.Engine.FanOutFetch | internal/application/execute_run.go:577-604 | whatever order the goroutines finish in, slot i ends with the answer of source i |
| Engine.Engine.Snapshot | internal/application/execute_run.go:675-688 | builds the snapshot map of a metric: the answers that arrived, from sources that support the capability and filled the field |
| Engine.Engine.CompareMetric | internal/application/execute_run.go:674-716 | appends the record of this metric if its answers disagree, nothing otherwise; a failed save appends nothing |
| Engine.Engine.CompareAndSave | internal/application/execute_run.go:661-718 | appends exactly the records of the metrics in order, or on a failed save a proper prefix of them |
| Engine.Engine.Visit | internal/application/execute_run.go:297-309 | one subject: its records, its summary subject and its comparison count are all added, or the save failed |
| Engine.Engine.RunBlockPass | internal/application/execute_run.go:288-312 | records of all sampled blocks in order; stopped early, a prefix of them and the reason |
| Engine.Engine.RunAddressLatestPass | internal/application/execute_run.go:324-356 | records of all sampled addresses in byte order; stopped early, a prefix of them and the reason |
| Engine.Engine.RunAddressAtBlockPass | internal/application/execute_run.go:370-408 | records of address times block, addresses outermost; stopped early, a prefix of them and the reason |
| Engine.Engine.RunERC20HoldingsPass | internal/application/execute_run.go:422-453 | records of the holdings query for all sampled addresses; stopped early, a prefix of them and the reason |
| Engine.Engine.RunERC20BalancePass | internal/application/execute_run.go:474-520 | records of address times token, addresses outermost; stopped early, a prefix of them and the reason |
| Engine.Engine.RunPasses | internal/application/execute_run.go:260-274 | the five passes together save the declarative list of all jobs, or stop with a prefix of it |
| Engine.ExecuteInner | internal/application/execute_run.go:224-283 | nothing is saved before sources, anchor and tip are known; an unhindered run has no error, and an error comes with a context, save or sampler that did stop it. Over the ports and the run alone: every record is the one of a block sampled up to the tip, or of an address or token the plans drew, at its height, with the anchor of the run and the values the sources answered; without an error no rejected answers are missed, and the summary holds the anchor, the source ids, those subjects in order and the count of comparisons |
| Engine.Execute | internal/application/execute_run.go:94-122 | a run that is not pending is left alone; otherwise it ends completed without an inner error and failed with one, over what ExecuteInner did, in terms of the ports and the run alone, and keeps its summary |
| EngineSpec.SummaryAcceptedExactly | internal/application/execute_run.go:281 | the ignored RecordSummary error occurs exactly when some source id is empty |
| EngineSpec.ComparisonCount | internal/application/execute_run.go:154-220 | the comparison count is the sum over the passes of subjects times metrics, where subjects are blocks, addresses, address times block, addresses, and address times token |
| RunSpec.RunsOverPorts | internal/application/execute_run.go:224-283 | what a run saved and recorded, told from the ports and the run: records and their values, heights, subjects, judgement and anchor, what is not missed, and the whole summary; without two sources, an anchor or a tip it fails and leaves nothing |
| RunSpec.SavedFromPorts | internal/application/execute_run.go:288-716 | every record, in a full run or a stopped one, belongs to a sampled subject and a metric of the category or capability of its pass, holds the answer of the last source of each id that filled the field, and is judged; the tolerance set for the metric calls its answers a disagreement, or without one they differ |
| RunSpec.AllFromPorts | internal/application/execute_run.go:288-716 | with non-empty ids, whenever the tolerance set for a metric rejects the answers to a job of the run, or without one they differ, there is a record with its block, subject and values |
| RunSpec.SummaryFromPorts | internal/application/execute_run.go:154-220 | the subjects of the summary are blocks, addresses, address times block, addresses, and address times token, each pass present exactly when the run has a metric for it, and the comparisons are the sum of subjects times metrics |
| RunSpec.BlocksNamed | internal/application/execute_run.go:251-256 | for a run with a block metric the block subjects of the summary are the blocks sampled up to the tip, in order, and come first |
| RunSpec.AddressesOver | internal/application/execute_run.go:614-638 | the addresses of a run: in byte order and without repeats, what the plans drew at the anchor, or none when one of them fails |
| RunSpec.PairsAt | internal/application/execute_run.go:381-405 | the pair of x number i and y number j comes at place i times the number of ys plus j |
| RunSpec.ValuesUnique | internal/application/execute_run.go:675-688 | the answers to a job determine the values of its record |
| Findings.SnapshotsMeaning | internal/application/execute_run.go:675-688 | a source id is compared exactly when a source of that id supplied the field, with the answer of the last one that did |
| Findings.DisagreesExactly | internal/application/execute_run.go:689-695 | without overrides a diff is due exactly when two usable answers differ in text and, for a query at latest, none lies outside the 64-block window |
| Findings.DueExactly | internal/application/execute_run.go:675-695 | for sources that answer each query with its own kind of result, a diff is due exactly when two usable answers mean different values (and, at latest, none lies outside the window) |
| Findings.LatestPassCountsIdleMetrics | internal/application/execute_run.go:324-354 | the ERC-20 metrics of a run belong to the address-latest pass, are never compared there and are counted there |
| Findings.LostExactly | internal/application/execute_run.go:696-706 | a confirmed disagreement is skipped exactly when the run id or a participating source id is empty |
| Findings.NoneLostNoneMisjudged | internal/application/execute_run.go:689-714 | with non-empty ids and no overrides every disagreement has a record, and every record reports one, with two distinct values, the category severity, and a trusted set neither empty nor everyone |
| Replay.DiffRepository.Replay | internal/application/replay_diff.go:48-143 | a successful replay either marks the record resolved or appends one new record, never both, and a failed one changes nothing |
| Replay.AnswersExactly | internal/application/replay_diff.go:60-85 | an original participant is compared again exactly when its source exists, supports the metric, answers the block and fills the field, and then with that answer |
| Replay.ReplayReproduces | internal/application/replay_diff.go:48-143 | replaying a block-immutable diff against sources that answer as before saves the same record again |
| Replay.ReplayDecidesExactly | internal/application/replay_diff.go:86-142 | under the default tolerance a replay resolves exactly when all usable answers are equal, else it saves the current answers under the old run, block, anchor, seed and tier (that of the metric where none was set), well judged |
| Replay.SavedDiffsReload | internal/infrastructure/persistence/mapper.go:155-351 | every diff saved by a run over catalog metrics is read back as it was saved |
| Replay.StoredDiffReplays | internal/application/replay_diff.go:48-143 | replaying the stored form of a diff also reproduces it |
| FanOut.EveryInterleaving | internal/application/execute_run.go:577-604 | within one budget window, when each metered source has room for all its goroutines or for none, every interleaving ends with the same slots; a denied source is never fetched, an admitted goroutine fetches once; a source pays one unit per successful fetch and none for failed or denied ones |
| FanOut.OneUnitEach | internal/application/execute_run.go:577-604 | for distinct ids, without further condition, slot i holds its answer or its denial and the source pays exactly its net cost |
| FanOut.DistinctUnanimous | internal/application/execute_run.go:577-604 | distinct ids always meet that condition |
| FanOut.InterleavingsAgree | internal/application/execute_run.go:577-604 | any two complete interleavings end with the same slots and the same usage of every source |
| FanOut.EqualsSequential | internal/application/execute_run.go:577-604 | every complete interleaving ends like the sequential left-to-right run |
| FanOut.FourTurnsComplete | internal/application/execute_run.go:584-602 | four turns of each goroutine, in any order, finish the call |
| FanOutRaces.DuplicateSourcesRace | internal/application/execute_run.go:586-601 | for a source with room for some of its goroutines only, two complete schedules end with different slots: in one the slot holds the answer, in the other the denial |
| FanOutRaces.SchedulesAgreeExactly | internal/application/execute_run.go:577-604 | when fetches succeed, all complete schedules fill the slots alike exactly when each metered source has room for all its goroutines or for none |
| FanOut.UnbudgetedInterleaving | internal/application/execute_run.go:577-604 | without a budget every interleaving fills slot i with answer i and leaves the counters alone, whatever the ids |
| Budget.KeySecondsExactly | internal/infrastructure/queue/budget.go:168-171 | start seconds tell all windows apart exactly when the window is at least a second |
| Budget.KeySound | internal/infrastructure/queue/budget.go:168-171 | for one window length two keys are equal exactly when they name the same source and the same window |
| Budget.KeyText | internal/infrastructure/queue/budget.go:168-171 | the key is the prefix, the source and the Unix second of the last instant that is a whole number of windows from year 1 |
| Budget.EpochPinnedExactly | internal/infrastructure/queue/budget.go:168-171 | windows start at multiples of the window since the Unix epoch exactly when the window divides the distance from year 1 |
| Budget.UnlimitedExactly | internal/infrastructure/queue/budget.go:45-51 | a source is unlimited exactly when it has no policy or one with window and limit both zero; otherwise its stored policy applies |
| Budget.ZeroLimitDenies | internal/infrastructure/queue/budget.go:95-122 | a zero limit on a positive window denies every positive reservation |
| Budget.RedisBudget.Reserve | internal/infrastructure/queue/budget.go:95-122 | an unlimited source is granted without a trace; otherwise a reservation is granted exactly when the count of the current key plus n stays within the limit configured for the source, and the count rises by n; the first units of a window set an expiry at now plus the window in whole milliseconds plus a second, later ones keep it; a denied one changes nothing, and no call touches another key |
| Budget.RedisBudget.Refund | internal/infrastructure/queue/budget.go:129-146 | takes n off the count of the current key and keeps its expiry, or removes the key when nothing is left; other keys stay; an empty id is an error |
| Budget.RedisBudget.RunReserve | internal/infrastructure/queue/budget.go:177-190 | a count that would pass the limit gives -1 and changes nothing; else the count rises by n, a count of zero gets a fresh expiry and any other keeps its own; other keys stay |
| BudgetProtocol.StepKeeps | internal/infrastructure/queue/budget.go:95-146 | every step of any worker keeps the protocol invariant, which covers every source and every past, present and future window |
| BudgetProtocol.RunKeeps | internal/infrastructure/queue/budget.go:95-146 | so does every run |
| BudgetProtocol.CountsStayInLimits | internal/infrastructure/queue/budget.go:177-205 | over every run the key of any source and window, while stored, counts between 1 and the configured limit, no more than the calls of the run were granted in that window, and carries an expiry beyond it |
| BudgetProtocol.GrantsStayInLimits | internal/infrastructure/queue/budget.go:95-146 | over every run the units granted to the calls of a window never exceed the configured limit plus the units refunded in it, and the key of every window, past or current, counts at least grants minus refunds |
| BudgetProtocol.LedgerAddsUp | internal/infrastructure/queue/budget.go:95-146 | what the proof books under a key is the sum of what the calls made in that window were granted and gave back |
| BudgetProtocol.ExactWhenCovered | internal/infrastructure/queue/budget.go:129-146 | the count equals grants minus refunds throughout a run exactly when no refund exceeds what its window has out, so that the zero floor never loses a unit |
| Reservations.OwnRefundsExact | internal/infrastructure/queue/budget.go:124-146 | when each refund gives back a different reservation in the window that granted it, the count equals reserved minus refunded throughout and the zero floor never loses a unit |
| Reservations.HeldStaysInLimits | internal/infrastructure/queue/budget.go:95-146 | over every run what a window granted and did not get back in that window is at most its limit plus the foreign units refunded in it |
| Reservations.CanPassExactly | internal/infrastructure/queue/budget.go:95-146 | further reservations and own refunds can bring what the current window has out above the limit exactly when its counter already says less than what is out |
| Reservations.GapOpensExactly | internal/infrastructure/queue/budget.go:129-146 | a foreign refund makes the counter say less than what is out exactly when the current window counts anything or it did so before; an own refund never does |
| Reservations.LateRefundOvergrants | internal/infrastructure/queue/budget.go:129-146 | giving back a reservation of an earlier window lets a full current window, which had denied the same units, grant them and have more out than its limit |
| Reservations.LateRunOvergrants | internal/infrastructure/queue/budget.go:95-146 | from the empty store a run of five calls over two windows ends with limit + 1 units granted in the second and none of them given back |
| BudgetProtocol.GrantedExactly | internal/infrastructure/queue/budget.go:95-122 | a reservation is granted exactly when usage plus n stays within the limit |
| BudgetProtocol.StepUsage | internal/infrastructure/queue/budget.go:95-146 | a reserve or refund moves the usage of its own source by n, with the floor, and of no other |
| BudgetProtocol.RefundNoOpExactly | internal/infrastructure/queue/budget.go:195-205 | a refund leaves the store alone exactly when nothing is counted in the current window |
| Tolerance.WindowMeaning | internal/diff/tolerance.go:117-143 | the guarded uint64 bounds are the interval from max(0, anchor - back) to min(2^64 - 1, anchor + fwd) |
| Tolerance.NumericOnDecimals | internal/diff/tolerance.go:72-100 | on decimal raws the numeric tolerance accepts exactly the numbers within the absolute or the relative slack |
| Tolerance.NumericExactly | internal/diff/tolerance.go:72-100 | the same for any two raws that read as numbers; others are never accepted |
| Tolerance.BigIntReads | internal/diff/tolerance.go:158-172 | behind white space a raw is read as the signed hexadecimal numeral after 0x or 0X, else as the signed decimal one, leading zeros and either case included |
| Tolerance.TrimCore | internal/diff/tolerance.go:162 | trimming drops the white space around a text and nothing of the text |
| Tolerance.DiscardExactly | internal/diff/tolerance.go:50-156 | a built-in tolerance discards a pair exactly when one of its windows leaves a reflected block out |
| Tolerance.BuiltInSymmetric | internal/diff/tolerance.go:50-156 | the built-in tolerances, however nested, do not depend on which of two answers comes first |
| Tolerance.ApplyTolerance | internal/application/execute_run.go:790-827 | the outcome is that of the sorted entries, whatever order the map yields |
| Tolerance.PairwiseLoop | internal/application/execute_run.go:806-826 | discards when some pair does, else agrees when all pairs do, else disagrees |
| Tolerance.OrderIndependent | internal/application/execute_run.go:790-827 | for a symmetric tolerance every ordering of the sources gives the same outcome |
| Tolerance.WindowSplits | internal/diff/tolerance.go:117-143 | an anchor window discards a sample exactly for a stale member and otherwise leaves the verdict to the inner tolerance |
| Tolerance.WindowedExactIsLinear | internal/application/execute_run.go:806-826 | under an anchor window over exact match the quadratic loop equals one linear check of the reflected blocks and the raws |
| Tolerance.EqualRawsDisagree | internal/diff/tolerance.go:72-143 | exactly when a built-in tolerance calls equal raws a disagreement |
| Tolerance.DefaultDisagreementShows | internal/application/tolerance_resolver.go:38-57 | without an override a confirmed disagreement has two distinct raws |
| Judgement.GroupByRaw | internal/diff/judgement.go:108-117 | partitions the sources by raw value, each cluster in id order, whatever the map order |
| Judgement.PickTrustedCluster | internal/diff/judgement.go:123-163 | the cluster of the best-ranked present source, else the largest cluster with the least raw |
| Judgement.Judge | internal/diff/judgement.go:67-88 | a single raw is informational and trusts everyone; otherwise the category severity and the trusted cluster in id order |
| Judgement.JudgementUnique | internal/diff/judgement.go:67-163 | two judgements of one discrepancy are equal, so no map iteration order shows |
| Judgement.TrustedExactly | internal/diff/judgement.go:123-163 | with two distinct raws the trusted sources are, in id order, all that share one raw: that of the participant whose last place in the trust list comes first, or without one in the list the raw most participants share, the least text on a tie |
| Judgement.SeverityExactly | internal/diff/judgement.go:67-106 | critical exactly for unequal raws of block-immutable and at-block metrics, a warning for those of the other categories, informational for snapshots and equal raws |
| Judgement.TrustedProper | internal/diff/judgement.go:67-88 | with two distinct raws the trusted sources are some but not all participants, and the severity is the category's |
| Judgement.TrustOrderExactly | internal/diff/judgement.go:123-142 | the engine trusts the source listed earliest, for all answers, exactly when first and last positions rank the ids alike |
| Judgement.RepeatedTrustReorders | internal/diff/judgement.go:123-142 | a list with a repeat for which it does not |
| Sampling.LatestNBlocks | internal/verification/sampling.go:77-92 | exactly the last n blocks up to the tip, cut at block 0, in order |
| Sampling.SparseStepsBlocks | internal/verification/sampling.go:167-183 | exactly the blocks of the range congruent to its start modulo the step, in order, without wrapping |
| Sampling.RandomBlocks | internal/verification/sampling.go:111-150 | exactly min(count, length) distinct blocks of the range in increasing order: those drawn before count different values were |
| Sampling.SelectedExactly | internal/verification/sampling.go:111-150 | a block is selected exactly when some draw names it before count different values were drawn |
| Sampling.RangeLengthExactly | internal/chain/range.go:23-28 | the uint64 length of a range is right for every range but that of all 2^64 blocks, where it is 0 |
| Sampling.RejectionLoop | internal/verification/sampling.go:136-147 | terminates, with the first count distinct draws |
| Sampling.FreshIffEnough | internal/verification/sampling.go:136-147 | the stream keeps offering fresh values until count are found exactly when some prefix holds count distinct values |
| Address.NewAddress | internal/chain/address.go:31-56 | a string is an address exactly when it is a prefix and the 40 digits of the address as a number, in one case or in the case the digest bits give each letter |
| Address.Eip55Hex | internal/chain/address.go:110-137 | writes 0x and the 40 digits of the address as a number, a letter in upper case exactly when bit 4 i of the digest, read as a 256-bit number, is set |
| Address.HasMixedCase | internal/chain/address.go:142-154 | true exactly when a lower-case and an upper-case hex letter both occur |
| Address.ParsePrinted | internal/chain/address.go:31-137 | parsing the printed address returns it |
| Address.AcceptsExactlySpellings | internal/chain/address.go:31-56 | the accepted strings of an address are its lower-case, its upper-case and its printed spelling |
| Address.ParsesExactly | internal/chain/address.go:31-56 | the same without any printing: the digits of the number, and the case rule where both cases occur |
| Address.HexIsChecksummed | internal/chain/address.go:110-137 | the printed form follows the case rule of EIP-55, digit by digit, on the digest read as one number |
| Address.ChecksummedIsHex | internal/chain/address.go:110-137 | no other string does |
| Digits.HexEncodeDigits | internal/chain/address.go:110-116 | hexadecimal text of bytes is the digits of the number they are, most significant first |
| Digits.NumeralDigits | internal/application/extract.go:28-90 | digit i of a printed number is its digit at that place |
| Digits.NumeralSpellings | adapters/rpc/hex.go:17-55 | a text is read as n exactly when it is the printed form of n behind any number of zeros, in either case |
| Digits.IntSpellings | internal/diff/tolerance.go:161-172 | the same for signed numerals |
| Holdings.ExtractHoldings | internal/application/extract.go:176-194 | writes the sorted, joined entries of a copy of the list |
| Holdings.CanonicalRoundTrip | internal/application/extract.go:176-194 | parsing the holdings string returns the map from contract to optional balance |
| Holdings.CanonicalIffSameBalances | internal/application/extract.go:176-194 | two lists print alike exactly when they hold the same contracts with the same balances; absent balance, zero and the empty list all differ |
| Holdings.CanonicalPieces | internal/application/extract.go:176-194 | the pieces between semicolons are, in byte order of the contracts, the printed contract, an equals sign and the decimal balance or nothing |
| Sorting.LexLessExactly | internal/application/extract.go:178-181 | the byte order: at the first place where two keys differ the first is smaller, or ends |
| Extract.RawComparesValues | internal/application/extract.go:28-194 | the raws of two answers are equal exactly when the fields mean the same value |
| Extract.BlockProjections | internal/application/execute_run.go:728-734 | each block capability reads the field of its name, hashes and miner in hex and counts in decimal, without a reflected block; any other yields nothing |
| Extract.LatestProjections | internal/application/execute_run.go:736-742 | balance, nonce and transaction count at latest, with the block the answer reflects |
| Extract.AtBlockProjections | internal/application/execute_run.go:744-750 | balance and nonce at a block, with the block the answer reflects |
| Extract.TokenProjections | internal/application/execute_run.go:752-766 | holdings and token balance, whatever the capability, with the block the answer reflects |
| RunLifecycle.Run.Start | internal/verification/run.go:273-280 | accepted from pending only; the whole new state |
| RunLifecycle.Run.Complete | internal/verification/run.go:283-290 | accepted from running only; the whole new state |
| RunLifecycle.Run.Fail | internal/verification/run.go:296-306 | accepted from pending and running; the whole new state |
| RunLifecycle.Run.Cancel | internal/verification/run.go:309-316 | accepted from pending and running; the whole new state |
| RunLifecycle.Run.SetTokenPlans | internal/verification/run.go:231-247 | accepted while pending and without nil plans; the whole new state |
| RunLifecycle.Run.RecordSummary | internal/verification/run.go:346-368 | accepted while running and for a valid summary; the whole new state |
| RunLifecycle.NewRunConsistent | internal/verification/run.go:115-161 | accepts exactly a non-empty id, a chain, metrics and no nil plan; the new run keeps what was given, is pending, and its fields agree |
| RunLifecycle.LifecycleHolds | internal/verification/run.go:231-368 | over every operation sequence finishedAt is set exactly in terminal states, an error message implies failed, the status changes at most twice, and identity, metrics and address plans never change |
| RunLifecycle.TerminalAbsorbs | internal/verification/run.go:273-368 | a terminal run never changes again, and token plans are frozen once a run left pending |
| Serialize.StrategyRoundTrip | internal/infrastructure/persistence/serialize.go:90-205 | a strategy survives exactly when its range is not inverted, and an inverted one is an error |
| Serialize.BlockReads | internal/chain/block.go:43-73 | a block number is read from a JSON number in range or from a hexadecimal string with a prefix, in any spelling, and from nothing else |
| Serialize.TriggerRoundTrip | internal/infrastructure/persistence/serialize.go:28-62 | every trigger survives |
| Serialize.AddressPlansRoundTrip | internal/infrastructure/persistence/serialize.go:246-338 | every list of address plans survives |
| Serialize.TokenPlansRoundTrip | internal/infrastructure/persistence/serialize.go:360-429 | every list of token plans survives |
| Serialize.SubjectsRoundTrip | internal/infrastructure/persistence/serialize.go:448-488 | every list of valid summary subjects survives, omitted members included |
| Serialize.ValuesRoundTrip | internal/infrastructure/persistence/serialize.go:498-532 | every snapshot map survives |
| Serialize.UnmarshalColumn | internal/infrastructure/persistence/serialize.go:283-304 | absent, null and empty columns give no plans; otherwise all items decoded, or the error of the first that fails |
| Serialize.MarshalValues | internal/infrastructure/persistence/serialize.go:498-512 | the same object whatever the map order |
| Serialize.UnmarshalValues | internal/infrastructure/persistence/serialize.go:514-532 | the same map whatever the map order, or an error when some value does not decode |
| Mapper.MetricByKeyExactly | internal/infrastructure/persistence/mapper.go:20-28 | looking up a metric's key returns that metric exactly when it is in the catalog, so catalog keys are distinct |
| Mapper.ResolveMetrics | internal/infrastructure/persistence/mapper.go:111-118 | the metrics of a key list, or an error at the first unknown key |
| Mapper.RunRoundTrip | internal/infrastructure/persistence/mapper.go:32-151 | a run comes back from its row unchanged exactly when it has an id, a chain, catalog metrics and a range that is not inverted |
| Mapper.PersistenceInvisible | internal/infrastructure/persistence/mapper.go:32-151 | saving and reloading between any two operations of any sequence gives the run that was never stored |
| Mapper.DiffRoundTrip | internal/infrastructure/persistence/mapper.go:155-351 | a diff comes back from its row unchanged exactly when its metric is in the catalog and its tier is set |
| Pipeline.ScheduleStable | internal/verification/schedule.go:28-41 | a schedule built again from its own cron expression and timezone is the same |
| Pipeline.CronExactly | internal/verification/schedule.go:60-94 | of words with blanks between them exactly those of five or six words over the cron characters are accepted |
| Pipeline.ScheduleRoundTrip | internal/infrastructure/persistence/mapper.go:213-285 | a schedule record comes back from its row unchanged exactly when NewSchedule builds its schedule, its metrics are in the catalog and its range is not inverted |
| Pipeline.PayloadRoundTrip | internal/infrastructure/queue/tasks.go:67-104 | a payload survives exactly when it names a chain, a strategy kind and a metric, and is an error otherwise |
| Pipeline.ScheduleTable.ScheduleRecurring | internal/infrastructure/queue/dispatcher.go:150-184 | stores one active row under the new id, or fails and stores nothing |
| Pipeline.ScheduleTable.CancelScheduled | internal/infrastructure/queue/dispatcher.go:189-197 | deactivates that row, changes no other and deletes none; a failed update changes nothing |
| Pipeline.Worker.HandleScheduledRun | internal/infrastructure/queue/handlers.go:119-201 | stores the materialised run and then enqueues it; an enqueue failure leaves it stored, any earlier failure changes nothing; a payload that yields no run is not delivered again, any other failure is |
| Pipeline.BuildScheduledRunTask | internal/infrastructure/queue/dispatcher.go:284-314 | fills the payload that FiresExactly and ScheduleSurvives are about, one key per metric and one envelope per plan |
| Pipeline.FiresExactly | internal/infrastructure/queue/dispatcher.go:284-314 | payload and handler turn a record into the pending run with its chain, strategy, metrics, plans and cron expression exactly when it names a chain and catalog metrics and its range is not inverted |
| Pipeline.TaskIgnoresTimezone | internal/infrastructure/queue/dispatcher.go:284-314 | two records that differ in their timezone alone are queued alike |
| Pipeline.ScheduleSurvives | internal/infrastructure/queue/handlers.go:119-201 | record to row to record to payload to run to row to run keeps all of that for every storable record |
| WindowMetrics.PercentileMs | internal/application/probe/evaluate_window.go:159-176 | nothing for an empty window, else the least observed latency that at least ceil(p n) observations do not exceed |
| WindowMetrics.PercentileReaches | internal/application/probe/evaluate_window.go:159-176 | the percentile is at least v exactly when fewer than p percent of the observations are faster than v |
| WindowMetrics.RateReaches | internal/application/probe/evaluate_window.go:181-192 | the error rate is at least v exactly when 100 times the failures is at least v times the observations |
| WindowMetrics.ErrorRateRange | internal/application/probe/evaluate_window.go:181-192 | the error rate lies in 0 to 100, is 0 exactly when nothing failed and 100 exactly when everything did |
| WindowMetrics.ErrorRatePct | internal/application/probe/evaluate_window.go:181-192 | the share of failed observations in percent |
| WindowMetrics.ConsecutiveFailures | internal/application/probe/evaluate_window.go:198-219 | the length of the trailing run of errors in time order, nothing for fewer than n observations |
| WindowMetrics.TripsExactly | internal/application/probe/evaluate_window.go:198-219 | with distinct timestamps the threshold n is reached exactly when the n most recent observations are all errors |
| WindowMetrics.EvidenceIsRecent | internal/application/probe/evaluate_window.go:224-236 | a long list is cut to exactly the most recent observations, in time order |
| WindowMetrics.EvidenceSortedExactly | internal/application/probe/evaluate_window.go:224-236 | the evidence is in time order exactly when it was cut or came in order |
| WindowMetrics.ShortEvidenceUnsorted | internal/application/probe/evaluate_window.go:224-236 | a short list that stays out of order |
| Incidents.EvidenceInOrder | internal/application/probe/evaluate_window.go:87-107 | the evidence taken from a listed window is in time order, cut or not |
| Incidents.TripsOverTable | internal/application/probe/evaluate_window.go:73-99 | the consecutive-failures threshold trips exactly when the N most recent of all recorded observations are errors and the N-th is no older than the window, which is 10 N seconds where none is configured |
| Incidents.SlowProbeNeverTrips | internal/application/probe/evaluate_window.go:73-83 | without a window, a probe whose N observations outlast 10 N seconds never trips it |
| Incidents.SweepIdle | internal/application/probe/ports.go:56-72 | a retention sweep that keeps the window of a threshold leaves its reading alone |
| Incidents.NewProbe | internal/probe/probe.go:67-275 | accepts exactly non-blank ids, valid targets and schedules, and a non-empty list of valid thresholds with distinct metrics, and keeps them |
| Incidents.EvaluatedKeeps | internal/application/probe/evaluate_window.go:67-128 | an evaluation keeps incidents well formed and those of one probe and metric disjoint and ordered in time |
| Incidents.RunKeeps | internal/application/probe/evaluate_window.go:53-128 | over every sequence of observations, prunings and evaluations, so that a probe and metric never have two open incidents |
| Incidents.OpenExactly | internal/application/probe/evaluate_window.go:94-126 | after an evaluation with enough data an incident is open exactly when the reading is at or above the threshold; Decisions says what that is over the table |
| Incidents.ReevaluationIdle | internal/application/probe/evaluate_window.go:67-128 | evaluating again on the same reading, now or later, changes nothing |
| Incidents.ReevaluationAtOnce | internal/application/probe/evaluate_window.go:67-128 | a second evaluation at the same instant changes nothing |
| Incidents.HistoryKept | internal/application/probe/evaluate_window.go:106-126 | an evaluation closes at most the open incident of its series, adds at most one, and alters nothing else |
| Incidents.ClosedForGood | internal/probe/incident.go:145-158 | a closed incident never changes again |
| Incidents.ProbeDecides | internal/application/probe/evaluate_window.go:53-65 | after Execute every threshold of a validated probe follows its reading: open exactly at or above its value, unchanged without enough data |
| Incidents.DuplicateMetricsConflict | internal/probe/probe.go:242-251 | of two thresholds on one metric the later decides, and the earlier is left right exactly when both read alike |
| Decisions.EvaluationSettles | internal/application/probe/evaluate_window.go:67-157 | over the recorded observations alone: afterwards an incident is open exactly when fewer than 95 (99) percent of those in the window are faster than the value; when the failures are at least value percent of them; when the N most recent of all are errors, given N in the window (10 N seconds where none is configured); and without enough data exactly when one was open before |
| Decisions.ExecuteSettles | internal/application/probe/evaluate_window.go:53-65 | Execute settles every threshold of a validated probe in that sense at once |
| Decisions.NewIncidentSays | internal/application/probe/evaluate_window.go:106-118 | an evaluation that opens an incident adds just that one, for this probe, metric, value and instant; the observed value is a latency that meets the percentile, the exact rate, or the exact number of trailing failures, and the evidence is the last observations of the window in time order |
| EvaluateWindow.Evaluator.EvaluateThreshold | internal/application/probe/evaluate_window.go:67-128 | for a validated threshold only a repository can fail, and then nothing changes; otherwise the incident table is as the evaluation specifies, and settled as Decisions.EvaluationSettles says, over the observation table |
| EvaluateWindow.Evaluator.Execute | internal/application/probe/evaluate_window.go:53-65 | for a validated probe the thresholds are evaluated in order at one instant, all of them or those before the first repository failure; building and closing incidents never fails; without a failure every threshold is settled over the observation table |
| Trace.FlattenCallFrame | adapters/rpc/trace.go:93-118 | the accumulator followed by the preorder of the tree |
| Trace.FlattenBlock | adapters/rpc/trace.go:74-77 | the preorders of the transactions, concatenated |
| Trace.TraceIsPreorder | adapters/rpc/trace.go:74-118 | entry k of the flat trace comes from the frame at the k-th place in dictionary order, and the places are all places, each once: no frame is lost, repeated or moved to another transaction |
| Trace.EntryKeepsFields | adapters/rpc/trace.go:93-118 | entry k keeps sender, receiver, value, gas, call type and error of the frame at the k-th place, each read on its own: a field that does not parse is zero and leaves the others alone |
| Trace.CallReadsBack | adapters/rpc/trace.go:93-118 | a call in the canonical spelling of the node is read back as it was |
| Trace.ListingDetermined | adapters/rpc/trace.go:74-118 | that order of the places is the only one |

## Left out

- Engine.Engine.FanOutFetch: the engine runs without a budget; budgeted fan-outs are proved in FanOut, where a denied source leaves the comparison like a failed one.
- Engine.Execute: loading the run and the outcome of saving the failed run are outside the method; overlapping writers of one row (Save is an unconditional upsert) are not modelled.
- Engine.ExecuteInner: the sampled blocks are a function of strategy and tip here; the samplers that compute them are proved in Sampling.
- Findings.NoneLostNoneMisjudged: overrides are excluded; with them, Tolerance.EqualRawsDisagree says exactly when a disagreement can have equal raws.
- Reservations.OwnRefundsExact: whether a refund arrives in the window of its reservation is a matter of timing, so it is a condition.
- FanOutRaces.SchedulesAgreeExactly: states the exact condition for calls whose fetches succeed; a failed fetch gives its unit back, so schedules may agree in more cases.
- Sampling.LatestNBlocks: a tip of 2^64 - 1 is excluded, where the counting loop does not end; Sampling.RandomBlocks excludes a range that ends there only where it enumerates the whole range.
- Sampling.RandomBlocks: the generator is a stream of draws; that it keeps offering fresh values is the assumption.
- Holdings.CanonicalIffSameBalances: lists that name a contract twice are excluded, since their sort is unstable.
- WindowMetrics.TripsExactly: equal timestamps are excluded, since their sort is unstable; Decisions.EvaluationSettles excludes them for consecutive failures.
- Incidents.NewProbe: the URL parser is given.
- Judgement.Judge: the reasoning text is not part of a judgement here.
- Findings.DueExactly: holdings lists that name a contract twice are excluded.
- WindowMetrics.PercentileMs: float64 is replaced by exact numbers, so a rank that rounding moves is not modelled.
- Incidents.RunKeeps: evaluations are sequential, ids fresh and the clock does not go back; two evaluators on one probe can both open an incident, because finding and saving are two steps.
- Mapper.RunRoundTrip: a status or severity text the code does not write is an error here and an unchecked string in the source.
- Serialize.ValuesRoundTrip: fetch times are not part of a snapshot here, nor detection times and reasoning text part of a diff.
- Pipeline.ScheduleTable.ScheduleRecurring: polling for active schedules, retention sweeps and queue options are not modelled.
- Pipeline.PayloadRoundTrip: a byte member holds its JSON document directly instead of in base64.
- Pipeline.ScheduleStable: the loadable timezones are a given set, and cron expressions are checked for shape only, as in the source.
- Keccak-256 is a parameter: any function to 32 bytes.
- JSON is a tree of integers, strings, arrays and objects; byte syntax, fractional numbers and case-insensitive keys are not modelled, and nil and empty slices are the same.
- Redis, Postgres, asynq and HTTP are atomic steps, maps and parameters; transport errors, retries, the Remaining query of the budget and the metric_category column (written, never read back) are not part of this model.
- Source adapters, configuration, secrets, routes, views and the web frontend are not part of this model.
- The order of FixedList blocks is the caller's; there is nothing to prove.
