# A verified model of the statsd daemon

The daemon receives lines such as `gorets:1|c|@0.1`, aggregates them into counters, timers,
gauges and sets, and publishes one snapshot per flush interval. This project models that
pipeline from the client's buffer to the graphite receiver and proves what its parts promise
each other.

| file | what it models |
|---|---|
| `JsStrings.dfy` | `split`, `join`, `trim`, `replace`, and the key sanitiser of `stats.js` and `backends/graphite.js` |
| `Samples.dfy` | sums, `Array.sort`, `Math.round`, order statistics |
| `TimerMetrics.dfy`, `TimerTheorems.dfy`, `HistogramTheorems.dfy`, `SummaryTheorems.dfy` | `lib/process_metrics.js`: the summary of one timer, what its figures mean, and what is published under which name |
| `Packets.dfy`, `LineTheorems.dfy` | `lib/helpers.js` and the parsing half of `handlePacket`: a packet becomes a list of store updates, and what is read from the lines clients write |
| `Aggregator.dfy`, `StepTheorems.dfy` | the stores as a value, every step of the daemon as a transition function, and what each step does key by key |
| `Server.dfy`, `MgmtConsole.dfy` | `stats.js` and `lib/mgmt_console.js` as an object whose methods update the stores in place, each proved against the transition function |
| `CounterTheorems.dfy`, `TimerRuns.dfy`, `GaugeRuns.dfy`, `SetRuns.dfy`, `KeyRuns.dfy`, `RunEnds.dfy`, `PublishedRuns.dfy` | properties of whole runs: conservation, what a flush publishes, timer bookkeeping, gauge expiry, distinct elements of sets, idle entries, sanitised keys, and when a run ends early |
| `OrderTheorems.dfy` | updates commute: the order of arrival inside a flush interval does not matter |
| `FlushClock.dfy` | `getFlushTimeout` and the flush grid |
| `Deliveries.dfy`, `TcpServer.dfy`, `StatsdClient.dfy` | framing: how lines travel in chunks and datagrams, and why the stores cannot tell the chunks, the grouping or the order |
| `Proxy.dfy`, `ShardedRuns.dfy`, `NodeRing.dfy`, `ClusterHealth.dfy` | `proxy.js`: sharding of one interval and of whole runs, ring membership and the health broadcast |
| `Pickle.dfy`, `Naming.dfy`, `Graphite.dfy` | `backends/graphite.js`: serialisers with the readers that undo them, paths, and the counter flush end to end |

Conventions. JavaScript numbers are reals, objects are maps, and `Math.round(x)` is
`floor(x + 1/2)`. JavaScript's `Number` is a parameter (`Syntax.number`, where None is NaN), so
every theorem holds for any way of reading numbers that yields finite values. The clock is a
parameter of the methods that read it. The ring's hash is an arbitrary function of the raw key.

Faults. Three situations leave the daemon without a finite number to store: a sample rate such
as `@+5` passes the validator but makes the handler throw; a sample rate of 0 gives a counter or
timer an infinite weight; and an internal counter removed by `delcounters` is incremented to NaN.
The model ends the run there (`Stores.halted`). `Packets.FaultIff` says which values do so on
their own, with real inputs in `Packets.BadRates`; `RunEnds.RunEndsIff` says exactly when a run
with any commands ends, and `RunEnds.DeletedCounterEndsRun` shows that `delcounters statsd.*` is
enough.

Findings, each with the condition under which the code does what is expected:

- A top percentile whose rounded size is the whole sample reads before the start of its prefix
  sums, one well beyond 100 behind their end, and either loses its figures (`TimerTheorems.SliceExistsIff`, `TimerTheorems.TopSliceOfAllIsLost`).
- Histogram bins of one name overwrite each other: the published counts total the samples below
  the largest limit exactly when no sample lands in a bin whose name a later bin repeats
  (`SummaryTheorems.SummaryShowsHistogram`, `HistogramTheorems.RepeatedNameLosesSample`), and a
  configuration is free of such losses exactly when an earlier limit covers every overwritten bin
  (`HistogramTheorems.RepeatedNamesAreHarmlessIff`).
- A negative timer is stored exactly for a type padded with blanks (`Packets.NegativeTimerIff`,
  `Packets.NegativeTimer`).
- The metric filter reads a percentile's name as `_percent` exactly when the percentile is whole:
  `mean_99_9` becomes `mean_99_percent` (`SummaryTheorems.PercentIsStrippedIff`,
  `SummaryTheorems.FractionalPercentIsNotStripped`).
- The proxy hashes raw names and the daemon stores sanitised ones. A key stays whole exactly when
  all lines that carry it go to one node (`Proxy.KeyIsWholeIff`), and does so on every ring exactly
  when those lines share their raw name (`Proxy.SafeOnEveryRingIff`). Plain lines and lines with
  clean names do; `a b` and `a_b` do not (`Proxy.BlankAliasIsDivided`).
- In the legacy namespace a counter's rate shares the path of a timer's, gauge's or set's figure
  exactly when its name spells that figure (`Naming.LegacyCollisionIff`), as the counter `gauges.x`
  does for gauge x (`Naming.LegacyGaugeCollisionIff`). Counters among themselves, totals, and the
  other types among each other keep apart (`Naming.PathsAreDistinct`, `Naming.LegacyTotalsAreApart`,
  `Naming.LegacyTypesAreApart`).
- The pickle buffer is sized in UTF-16 units and filled with bytes: the payload is complete exactly
  when the body is ASCII (`Pickle.PayloadIsCompleteIff`). Without global sanitising a tag can make
  it otherwise (`Naming.TagsAreVerbatim`).

## Model

| member | source | states |
|---|---|---|
| TimerMetrics.PrefixSums | lib/process_metrics.js:33-39 | entry i of each list is the sum (of squares) of the first i+1 samples |
| TimerMetrics.Threshold | lib/process_metrics.js:53-69 | the figures read or subtracted from the prefix sums are those of the slice summed directly, or the lost values when the code reads outside them |
| TimerMetrics.Percentiles | lib/process_metrics.js:41-79 | over all configured percentiles the loop publishes the directly summed slices, skipping empty ones, with the one-sample case unchanged |
| TimerMetrics.SumOfDiffs | lib/process_metrics.js:85-88 | the loop computes the sum of squared distances from the mean |
| TimerMetrics.FindBins | lib/process_metrics.js:104-112 | the bins are those of the first rule whose metric occurs in the key, and there are none when no rule's does |
| TimerMetrics.FillHistogram | lib/process_metrics.js:119-127 | for limits in any order, every name shows the number of samples below the limit of its last bin and below no earlier limit, and the pointer advances at most once per sample over all bins |
| TimerMetrics.ProcessTimer | lib/process_metrics.js:22-136 | the stored list ends sorted and the summary is the specified function of the sorted samples |
| TimerTheorems.SliceIsPart | lib/process_metrics.js:53-67 | a slice is the first or last k sorted samples |
| TimerTheorems.SliceIsExtremal | lib/process_metrics.js:53-67 | no k of the received samples have a smaller sum than the lowest slice, nor a larger one than the top slice |
| TimerTheorems.SliceExistsIff | lib/process_metrics.js:53-67 | for every percentile, figures are lost exactly when there are several samples and the scaled size reaches the count plus one half, or for a non-positive percentile the count minus one half |
| TimerTheorems.SliceFits | lib/process_metrics.js:53-61 | within 100 the size is at most the count, and a positive percentile loses nothing |
| TimerTheorems.TopSliceOfAllIsLost | lib/process_metrics.js:62-66 | with two samples the percentile -90 publishes no sum and no mean |
| TimerTheorems.SliceMeanOrder | lib/process_metrics.js:53-68 | lowest mean <= overall mean <= top mean |
| TimerTheorems.ComplementSizes | lib/process_metrics.js:53-53 | the sizes for p and -(100-p) add to the count, or to one more exactly when p*count/100 ends in one half |
| TimerTheorems.ComplementSums | lib/process_metrics.js:53-67 | when they add to the count, the two slices together are the sorted samples, and their sums and sums of squares add up |
| TimerTheorems.VarianceIdentity | lib/process_metrics.js:81-93 | the two-pass sum of squared differences is sum_squares - sum^2/count |
| TimerTheorems.VarianceSign | lib/process_metrics.js:85-94 | the radicand of std is never negative, and zero exactly when all samples are equal |
| TimerTheorems.VarianceBound | lib/process_metrics.js:85-96 | std^2 <= (upper-mean)(mean-lower) <= ((upper-lower)/2)^2 |
| TimerTheorems.CentreIsInRange | lib/process_metrics.js:83-102 | mean and median lie between lower and upper, and the median splits the samples in halves |
| HistogramTheorems.BinCountOfSort | lib/process_metrics.js:119-127 | a bin's count is the same over the samples as they arrived |
| HistogramTheorems.FrequenciesPartition | lib/process_metrics.js:119-127 | the first j frequencies total the samples below one of the first j limits, each counted once |
| HistogramTheorems.HistogramTotal | lib/process_metrics.js:104-127 | the values of the published object total at most the samples below the largest limit (every sample when `inf` is configured), and exactly those if and only if no sample lands in a bin whose name a later bin repeats |
| HistogramTheorems.DistinctNamesLoseNothing | lib/process_metrics.js:119-127 | with pairwise distinct bin names the published counts total the samples below the largest limit |
| HistogramTheorems.RepeatedNamesAreHarmlessIff | lib/process_metrics.js:119-127 | a configuration loses no sample of any timer exactly when each bin whose name is repeated later is covered by an earlier limit |
| HistogramTheorems.ReachableIff | lib/process_metrics.js:119-127 | some value lands in a bin exactly when no earlier limit covers its own |
| HistogramTheorems.RepeatedNameLosesSample | lib/process_metrics.js:124-125 | two bins `10` publish 0 for a sample of 5, and so do two bins `inf` |
| HistogramTheorems.BinNames | lib/process_metrics.js:124-124 | a bin is named after its limit with the decimal point as `_` |
| SummaryTheorems.SummaryShowsPercent | lib/process_metrics.js:71-77 | every configured percentile's count, mean, boundary, sum and sum of squares stand under its own five names in the whole summary, as far as the filter lets the names through; for an empty slice the names are absent |
| SummaryTheorems.SummaryShowsSlice | lib/process_metrics.js:53-77 | every percentile that has figures publishes those of the samples it stands for: as many as the rounded share, none beyond them, with their sum, sum of squares, mean and boundary sample |
| SummaryTheorems.LostFigures | lib/process_metrics.js:58-67 | what a lost slice publishes: no numbers, except that a top percentile of exactly all samples keeps the least one as its boundary |
| SummaryTheorems.NamesAreDisjoint | lib/process_metrics.js:71-77 | percentiles that print differently share no name with each other or with the overall figures |
| SummaryTheorems.SummaryShowsOverall | lib/process_metrics.js:81-102 | through the filter, lower and upper are the least and greatest received sample; the mean times their number is the sum; the radicand of std is the one-pass variance; the median lies as far above the lower middle sample as below the upper; count and count_ps are the timer's counter and its share per second |
| SummaryTheorems.MedianIsMiddle | lib/process_metrics.js:90-91 | for every number of samples the median is equally far from the two middle samples |
| SummaryTheorems.IdleSummary | lib/process_metrics.js:129-133 | a timer without samples publishes a count and a count per second of 0 and nothing else |
| SummaryTheorems.SummaryShowsHistogram | lib/process_metrics.js:104-127 | the published histogram shows under every name the count of its last bin over the samples as they arrived, with its exact total |
| TimerTheorems.SummaryIgnoresOrder | lib/process_metrics.js:28-135 | the whole summary is the same for every arrival order |
| SummaryTheorems.CleanKeyStripsPercent | lib/process_metrics.js:147-162 | `m_90` and `m_top90` are filtered as `m_percent`, for any metric and digits |
| SummaryTheorems.PercentIsStrippedIff | lib/process_metrics.js:147-162 | for every percentile in decimal notation, its name is filtered as `m_percent` exactly when its text holds no dot |
| SummaryTheorems.FractionalPercentIsNotStripped | lib/process_metrics.js:153-155 | `m_99_9` is filtered as `m_99_percent` |
| SummaryTheorems.OtherNamesStay | lib/process_metrics.js:154-154 | a name that ends in no digits, or whose digits follow neither `_` nor `_top`, is filtered under itself |
| Samples.SortedIsUnique | lib/process_metrics.js:28-28 | two sorted lists of the same samples are equal, so sorting forgets arrival order |
| Samples.LowestSumIsLeast | lib/process_metrics.js:58-61 | the first k of a sorted list have the least sum of any k of its samples |
| Samples.HighestSumIsGreatest | lib/process_metrics.js:62-66 | the last k of a sorted list have the greatest sum of any k of its samples |
| LineTheorems.LineIsRead | stats.js:256-323 | a line of a name, any number of values with or without rates and any number of tags counts itself and then asks under its key for what each value says, in order; without a value it is one bad line; a counter's amount times the rate is the written number |
| LineTheorems.KeyAndBits | stats.js:256-280 | tags `t1:v1,t2:v2` put the line under `name;t1=v1;t2=v2`, sanitised |
| LineTheorems.SeparatorsInTags | stats.js:264-266 | inside a tag only the first semicolon and the first colon are replaced |
| LineTheorems.ValidatorCases | lib/helpers.js:12-58 | what the validator accepts and rejects for each type, value and rate field |
| LineTheorems.RateDigitsStop | stats.js:291-291 | a rate is read up to the first character that is no digit or dot |
| LineTheorems.EmptyElement | stats.js:316-316 | an empty set element is stored as `0` |
| Packets.WeightTimesRate | stats.js:301-301 | a sample's weight times its rate is 1 |
| Packets.NegativeTimerIff | lib/helpers.js:42-53 | a value stores a negative timer exactly when it is a negative number with a usable rate and its type is a padded `ms` |
| Packets.NegativeTimer | lib/helpers.js:42-53 | the value -5 with the type ` ms` is stored as the timer sample -5 |
| Packets.FaultIff | stats.js:290-292 | a valid value is a fault exactly when its rate does not go on with a digit or a dot, or reads as 0 or no number while its type scales by it |
| Packets.BadRates | stats.js:290-292 | a counter at the rate `@+5` or `@0` is valid and a fault |
| Server.Daemon.constructor | stats.js:213-225 | a new daemon has its three internal counters at zero and nothing else |
| Server.Daemon.HandleBit | stats.js:281-323 | one value of a line changes the stores as its parsed update says, or ends the run on a fault, a rate of 0 among them |
| Server.Daemon.HandleLine | stats.js:251-323 | a line counts itself and then applies its values in order |
| Server.Daemon.HandlePacket | stats.js:235-327 | a packet counts itself and applies its non-empty lines in order; a fault stops it where it occurs |
| Server.Daemon.SummariseTimers | lib/process_metrics.js:22-136 | every timer list ends sorted and has its summary |
| Server.Daemon.ResetCounters | stats.js:94-108 | counters are zeroed or, except the internal ones, deleted |
| Server.Daemon.ResetTimers | stats.js:110-120 | timer lists and counters are emptied or deleted together |
| Server.Daemon.ExpireGauges | stats.js:132-144 | every idle count drops by one, and gauges with none left disappear |
| Server.Daemon.FlushMetrics | stats.js:72-149 | publishes the stores as they were, with the lag gauge, then clears them |
| Server.Daemon.DeleteCounters | stats.js:418-420 | exactly the matching counters go, internal ones included |
| Server.Daemon.DeleteGauges | stats.js:426-428 | exactly the matching gauges go and their idle counts stay |
| Server.Daemon.DeleteTimers | stats.js:422-424 | exactly the matching timer lists go and their counters stay |
| StepTheorems.LineTakesEffect | stats.js:256-323 | from text to store: a packet of one line adds to a counter the amount that the rate times over is its number, appends a sample and a weight that the rate times over is 1, sets or moves a gauge, or inserts an element |
| StepTheorems.StartsEmpty | stats.js:213-225 | the run starts with exactly the three internal counters, at zero |
| StepTheorems.OwnNames | stats.js:214-220 | the names of the daemon's own metrics under its prefix, all different |
| StepTheorems.FlagsAreNormalised | stats.js:200-207 | each idle flag is its own setting or, without one, the common setting |
| StepTheorems.FlushPublishes | stats.js:79-89 | a flush publishes one snapshot of the stores as they are, with every rate times the interval in seconds its count |
| StepTheorems.FlushClearsTimers | stats.js:110-120 | key by key, which timers and timer counters a flush empties, deletes or leaves |
| StepTheorems.FlushClearsSets | stats.js:122-130 | sets are emptied or, with `deleteSets`, deleted |
| StepTheorems.FlushAgesGauges | stats.js:132-144 | gauges keep their values, and with `deleteGauges` lose a cycle or, in the last one, go |
| StepTheorems.DeletionTakes | stats.js:418-428 | each deletion command takes exactly the matching entries of its own store |
| StepTheorems.MatchesIff | lib/mgmt_console.js:46-67 | a bucket takes its own name, and `folder.*` exactly the names that go on after `folder.` |
| StepTheorems.FolderTakesItsOwn | lib/mgmt_console.js:53-64 | `folder.*` takes `folder.x` and leaves `folder` and `folderx` |
| StepTheorems.LagIsPublished | stats.js:73-77 | every flush after the first publishes as the lag the time since the one before minus the interval |
| StepTheorems.FirstFlushHasNoLag | stats.js:73-77 | the first flush publishes the gauges as clients left them |
| MgmtConsole.ExistingStats | lib/mgmt_console.js:46-67 | lists exactly the stored names that equal the bucket or lie in its folder |
| MgmtConsole.DeleteStats | lib/mgmt_console.js:14-34 | leaves exactly the stats that no requested bucket matches, values unchanged |
| CounterTheorems.ApplyAllCounts | stats.js:246-323 | updates halt exactly on a fault and otherwise add exactly their contributions to every counter |
| CounterTheorems.CountersBalance | stats.js:79-108 | over every run that has not ended early, with any commands and for every key, published totals, current value and deleted values together equal the accepted contributions |
| CounterTheorems.CountersAreConserved | stats.js:79-108 | over every run whose deletions spare the key and the internal counters, published totals plus the current value equal the accepted contributions |
| CounterTheorems.FaultsEndRuns | stats.js:223-225 | as long as no deletion names them the internal counters are always present, and the run ends early exactly on a fault |
| RunEnds.RunEndsIff | stats.js:237-288 | for every run: it ends early exactly when some packet holds a fault, or increments an internal counter that a deletion removed and neither an earlier packet nor an earlier value of this one wrote since |
| RunEnds.DeletedCounterEndsRun | stats.js:418-420 | after `delcounters` on the folder of the internal counters the next packet ends the run, whatever it holds |
| CounterTheorems.IdleCountersVanish | stats.js:94-108 | with `deleteCounters`, over every run, a counter whose name holds none of the words `packets_received`, `metrics_received` and `bad_lines_seen` exists exactly while it has been written since the last flush or matching `delcounters` |
| CounterTheorems.FlushClearsCounters | stats.js:94-108 | a flush zeroes every counter, and with `deleteCounters` leaves exactly those whose name holds one of the three words |
| CounterTheorems.ClientCounterGoes | stats.js:94-108 | the counter `a.b` is gone after every flush of such a daemon |
| CounterTheorems.InternalCountersCount | stats.js:235-288 | unless clients write to the internal counters, a packet adds one to the first, its number of non-empty lines to the second and its number of invalid values to the third |
| CounterTheorems.RatesAreConserved | lib/process_metrics.js:15-20 | over every run that has not ended early, the published rates of a counter times the interval in seconds, its current value and its deleted values together equal the accepted contributions |
| TimerRuns.TimersAreTracked | stats.js:295-301 | over every run a timer's list is exactly what arrived since it was last cleared or deleted, and its counter the sum of 1/rate over it |
| PublishedRuns.TimerHoldsPending | stats.js:295-301 | the stored list is the pending values in order of arrival, and the counter the sum of figures each of which times its sample's rate is 1 |
| PublishedRuns.RunPublishesTimer | lib/process_metrics.js:22-102 | after every run the next flush publishes, of every timer with pending samples, the sorted values, the sum of 1 over each rate as its count, that count per second, and the overall figures of the pending values |
| TimerRuns.TimerCounterBounds | stats.js:295-301 | when the pending samples were taken at rates of at most 1, the counter is at least their number, and it is their number exactly when every rate is 1 |
| TimerRuns.SamplesAreConserved | stats.js:295-301 | over every run that has not ended early, the samples in all snapshots, the stored ones and those `deltimers` took away are as a multiset exactly the accepted ones |
| TimerRuns.IdleTimersVanish | stats.js:110-120 | with `deleteTimers`, over every run, a timer exists exactly while samples have arrived for it since it was last cleared or deleted |
| GaugeRuns.GaugesTick | stats.js:302-306 | with `deleteGauges`, between steps every gauge but the lag gauge has 1 to T cycles left |
| GaugeRuns.WriteStartsCycle | stats.js:302-311 | a write restarts the cycles; a signed value adds to the gauge, counting an absent one as 0 |
| GaugeRuns.GaugeExpires | stats.js:132-144 | a gauge not written or deleted again is published with its value by exactly the next T flushes and by none after, across any other traffic |
| GaugeRuns.GaugePersists | stats.js:132-134 | without `deleteGauges` it keeps its value for ever |
| GaugeRuns.WrittenGaugeExpires | stats.js:132-144 | for every configuration file with idle gauges deleted and every history before, a gauge a packet writes and nothing writes or deletes again is published with that value by exactly the next T flushes, T being the file's whole number above 1 or else 1 |
| GaugeRuns.NormalisedGaugesTick | stats.js:193-198 | in every run from such a file each gauge but the lag gauge has 1 to T cycles left between steps |
| SetRuns.SetsAreDistinctElements | stats.js:312-316 | over every run a set holds exactly the distinct elements received since the last flush, and with `deleteSets` it exists exactly when there are any |
| PublishedRuns.RunPublishesSet | stats.js:79-89 | after every run the next flush publishes of every set exactly the distinct elements received since the last |
| SetRuns.ElementsAreConserved | stats.js:312-316 | over every run that has not ended early, the elements in all snapshots and the stored ones are together exactly the accepted ones |
| OrderTheorems.Commute | stats.js:295-322 | two updates in either order leave the same counters, timer samples, timer counters and sets |
| OrderTheorems.OrderDoesNotMatter | stats.js:295-322 | so do any two orders of a list of updates |
| Deliveries.ArrivalOrderIsInvisible | stats.js:246-323 | two fault-free deliveries of the same lines in any order and any grouping publish equal counters, rates, timers, timer counters, timer data and sets; only the packet counter differs, by the number of packets |
| FlushClock.TimeoutLandsOnGrid | stats.js:174-181 | for any time the timeout lies in (interval/2, 3*interval/2] and the flush falls on startup + m*interval |
| FlushClock.NextTargetIff | stats.js:174-181 | a flush aimed at point m aims next at m+1 exactly when it finishes within half an interval, early inclusive and late strict |
| FlushClock.FlushesDoNotDrift | stats.js:151-154 | over any run the targets are consecutive grid points exactly when every flush finishes within its window |
| Deliveries.GroupingIsInvisible | stats.js:237-324 | the same lines in the same order leave the same stores however they are grouped into packets, except for the packet counter |
| TcpServer.Connection.Data | servers/tcp.js:16-24 | the handler delivers up to the last newline and keeps the rest |
| TcpServer.Reassembles | servers/tcp.js:15-24 | packets and leftover spell the stream, every packet ends in a newline, the leftover holds none |
| TcpServer.ChunkingIsInvisible | servers/tcp.js:15-24 | however a stream is cut, the leftover is its part after the last newline, and the stores are those of one packet per complete line except for the packet counter |
| StatsdClient.Client.DoSend | examples/StatsdClient.java:205-233 | flushes when the stat and a separator may not fit, appends, and flushes again without batching; an oversized stat overflows |
| StatsdClient.Client.Flush | examples/StatsdClient.java:235-254 | sends the buffered text as one datagram and empties the buffer |
| StatsdClient.Client.SetBufferSize | examples/StatsdClient.java:81-86 | flushes before changing the capacity |
| StatsdClient.WhenStatsLeave | examples/StatsdClient.java:205-233 | without batching an accepted stat leaves at once; with it, it waits while it and a separator fit, and otherwise what was pending goes first; a stat larger than the buffer overflows |
| StatsdClient.UnbatchedStatGoesAlone | examples/StatsdClient.java:205-233 | a client that never batches sends every accepted stat as one datagram |
| StatsdClient.SettingsTakeEffect | examples/StatsdClient.java:81-90 | a resize sends what was pending under the old size; size and mode hold from then on |
| StatsdClient.BatchingIsUndone | examples/StatsdClient.java:205-263 | across sends, flushes, resizes and mode changes, datagrams stay within capacity and their lines with the pending ones are those of the accepted stats in order |
| StatsdClient.BatchingIsInvisible | examples/StatsdClient.java:205-263 | after a final flush a daemon holds the same stores as with one packet per accepted stat |
| Proxy.Distribute | proxy.js:108-138 | sends each non-empty line to the node of its raw key, in order |
| Proxy.ShardingConservesCounters | proxy.js:115-154 | for any routing, every counter but the packet counter, and the bad-line total, add up over the nodes to one daemon's |
| Proxy.ShardingKeepsEntries | proxy.js:141-154 | a key all of whose carrying lines share a node has on it exactly the single daemon's entry, and none elsewhere |
| Proxy.KeyIsWholeIff | proxy.js:115-154 | the converse too: some node holds the single daemon's entry and no other holds any exactly when all lines that carry the key go to one node |
| ShardedRuns.ShardedRunsConserveCounters | proxy.js:115-154 | over whole runs, with any flush schedule and deletions on every node, what the nodes together published, store and had deleted of a counter is what a single daemon has on its own schedule |
| ShardedRuns.ShardedRunsKeepKeys | proxy.js:141-154 | over whole runs with aligned flushes and commands, a key whose lines go to one node is stored and published there as by the single daemon, field by field, and nowhere else |
| Proxy.SafeOnEveryRingIff | proxy.js:119-122 | the lines of a key share a node on every ring exactly when they share their raw name |
| Proxy.PacketSendsAreSends | proxy.js:108-138 | distributing packets one by one sends what distributing all their lines sends |
| Proxy.PlainLinesAreSafe | proxy.js:119-122 | untagged lines with sanitised names always share the raw name of their key |
| Proxy.CleanNamesAreSafe | proxy.js:119-122 | so do lines, tagged or not, whose sanitised names hold no semicolon |
| Proxy.AliasesAreDivided | proxy.js:131-135 | names that sanitise alike but hash apart leave the entry of their key divided: on no node is it the single daemon's alone |
| Proxy.BlankAliasIsDivided | proxy.js:131-135 | `a b` and `a_b` are such names for a gauge |
| NodeRing.Proxy.MarkNodeAsHealthy | proxy.js:229-240 | resets the status and re-adds the node exactly after failures |
| NodeRing.Proxy.MarkNodeAsUnhealthy | proxy.js:242-252 | counts the failure and removes the node at the first one |
| NodeRing.RingMatchesStatus | proxy.js:229-252 | for every verdict sequence: in the ring iff status is undefined or 0, status counts failures since last healthy, removals and additions alternate starting with a removal |
| NodeRing.RingStaysConfigured | proxy.js:229-252 | the ring never holds a node that was not configured |
| ClusterHealth.StepConverges | proxy.js:41-45 | every command, relay and delivery keeps the settling invariant |
| ClusterHealth.HealthConverges | proxy.js:80-84 | whenever no message is in flight all workers hold the last relayed status, or the initial one |
| ClusterHealth.ChannelsAreFifo | proxy.js:41-45 | over every run a worker's commands are those relayed and those still queued, all relayed messages those delivered to it and those on the way, both in order, and its status is its latest command or delivery |
| ClusterHealth.WorkDecreases | proxy.js:41-45 | each relay or delivery brings the cluster one step nearer to quiet |
| ClusterHealth.QuietIffNoWork | proxy.js:41-45 | it is quiet exactly when no step is left |
| Pickle.PickleRoundTrip | backends/graphite.js:118-136 | the protocol-0 machine stops with exactly the (key, (ts, value)) list in order and nothing unread |
| Pickle.HeaderRoundTrip | backends/graphite.js:138-143 | the four big-endian bytes decode to the length |
| Pickle.HeaderBytes | backends/graphite.js:141-143 | the most significant byte comes first |
| Pickle.PickleLetters | backends/graphite.js:118-136 | one metric's body, letter by letter |
| Pickle.TextLetters | backends/graphite.js:114-133 | two metrics' text, letter by letter |
| Pickle.Utf8Bytes | backends/graphite.js:144-144 | the bytes of characters of one to four bytes |
| Pickle.ToPickle | backends/graphite.js:135-147 | the buffer starts with the length in UTF-16 units and then holds as many whole characters of the body as fit; for an ASCII body it is the header and the body |
| Pickle.PayloadIsCompleteIff | backends/graphite.js:135-147 | the whole body fits exactly when it is ASCII |
| Pickle.PicklePayloadRoundTrip | backends/graphite.js:135-147 | the receiver reads the list back from the bytes |
| Pickle.TextRoundTrip | backends/graphite.js:114-133 | the text payload splits into one line per metric, each read back as its metric |
| JsStrings.SanitizeFixes | stats.js:164-172 | the result has only key characters, and exactly such keys are left alone |
| JsStrings.SanitizeIdempotent | stats.js:164-172 | sanitising twice is sanitising once |
| JsStrings.SanitizeChar | stats.js:164-172 | a `/` becomes `-`, a key character stays and any other character goes, wherever it stands |
| JsStrings.SanitizeRun | stats.js:164-172 | a whole run of white space becomes one `_` |
| JsStrings.KeyChars | stats.js:164-172 | which characters a key may hold |
| JsStrings.Spaces | stats.js:166-166 | which characters are white space |
| JsStrings.TrimTakesEnds | stats.js:294-294 | `trim` takes the white space off both ends and nothing else |
| JsStrings.JoinSplit | stats.js:256-266 | joining what `split` cut gives the string back |
| Naming.PathRoundTrip | backends/graphite.js:174-204 | name, tags and kind can be read back from a counter's path in both namespace modes |
| Naming.PathsAreDistinct | backends/graphite.js:187-204 | different (key, rate or count) pairs never share a path |
| Naming.CounterPathText | backends/graphite.js:163-204 | a counter's path spelled out from the configured prefixes, suffix and sanitising, in both namespace modes |
| Naming.OtherNamespaces | backends/graphite.js:289-309 | the prefixes of timers, gauges and sets spelled out from the configuration |
| Naming.InitIsUnambiguous | backends/graphite.js:289-316 | prefixes and a suffix without semicolons give settings under which paths are unambiguous |
| Naming.LegacyCollisionIff | backends/graphite.js:310-316 | in the legacy namespace a counter's rate has the path of a timer, gauge or set figure exactly when its name spells the type, the name and the figure, and the tags agree |
| Naming.LegacyGaugeCollisionIff | backends/graphite.js:310-315 | for gauge x exactly when the counter is `gauges.x`, for tagged x and any suffix |
| Naming.LegacyTypesAreApart | backends/graphite.js:310-316 | timers, gauges and sets never share a path |
| Naming.LegacyTotalsAreApart | backends/graphite.js:187-194 | a counter's total never has the path of a timer, gauge or set figure |
| Naming.TagsAreVerbatim | backends/graphite.js:163-180 | with or without sanitising by `sk`, a tag with a character beyond ASCII puts it into the path |
| Naming.PathIsSafe | backends/graphite.js:164-180 | sanitised keys under sanitised settings give paths that both serialisers take verbatim |
| Naming.SanitizedKeyIsSafe | backends/graphite.js:163-172 | a sanitised key is safe and its name is fixed by `sk` |
| Graphite.FlushCounters | backends/graphite.js:187-204 | every counter's printed rate stands under its rate path and, exactly when totals are flushed, its printed total under its total path, each once and under a path of its own; every counter is counted |
| Graphite.CountersReachTheReceiver | backends/graphite.js:95-204 | for every snapshot of every run with sanitising on, and whatever metrics follow in the payload, the unpickled flush holds the snapshot's own rate and count of every counter, printed, under its paths and with the timestamp |
| KeyRuns.EveryKeyIsSanitized | stats.js:164-172 | with sanitising on, every key of every store in every reachable state, and of every published snapshot, is a sanitised one |

## Left out

- SummaryTheorems.SummaryShowsPercent: percentiles are in decimal notation; those that JavaScript prints with an exponent are not modelled.
- Server.Daemon.HandleBit: a rate of 0 or NaN ends the run, because stores hold finite numbers.
- Packets.FieldsUpdate: a sample rate of 0, or one whose leading digits read as NaN, ends the run for counters and timers; the daemon keeps an infinite or NaN entry until it is cleared.
- Packets.IsNumber: the literals that `Number` reads as infinite are outside the model, because stores hold reals.
- Aggregator.Halts: after `delcounters` removed an internal counter the daemon counts NaN until the next flush; the model stops.
- Pickle.ToPickle: the bytes of the buffer behind a cut body are unspecified; bodies of 2^32 units and more, which the header write rejects, and strings with lone surrogates are not modelled.
- Pickle.PickleRoundTrip: keys and values with quotes or backslashes are excluded, because the writer does not escape them.
- StatsdClient.Client.DoSend: characters stand for encoded bytes, and sends are complete; partial and failed sends are not modelled.
- StatsdClient.Client.SetBufferSize: takes the non-negative sizes that the buffer allocation accepts.
- Naming.PathsAreDistinct: is stated for counters; across types it is settled for the legacy namespace, while in the other one it depends on the configured prefixes.
- Proxy.Distribute: the ring is fixed and not empty; an empty ring drops messages with a warning.
- ClusterHealth.HealthConverges: membership is fixed; worker death and restart are not modelled.
- Snapshots are values: that backends share the live maps with the clear listener until it runs is reduced to the order of the two.
- Each `Set` object of `lib/set.js` is owned by one key, so sets are modelled as values and its methods as set insertion and cardinality.
- The iteration order of objects: loops over maps take keys in any order, and the results do not depend on it.
- The loops of the graphite flush over timers, gauges and sets, which repeat the counter loop with other namespaces, and its clock readings.
- Square roots are left symbolic (`RootOf`), numbers are formatted by a parameter, and IEEE rounding is not modelled.
- Key-flush logging, the `stats`, `config`, `health` and `help` console texts, configuration reload, sockets, timers and process management.
- The `hashring` package, the repeater and console backends, and the other example clients.
