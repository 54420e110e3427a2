# Verified model of the NetworkDoctor collector

NetworkDoctor measures a node's network from an eBPF program whose handlers run on many CPUs. They
bump per-CPU counters, histograms and state deltas, and keep per-connection and per-flow entries in
shared maps. A userspace process deletes stale entries, and on each scrape reads everything piece by
piece, without a lock, into Prometheus metrics. This project models that system in Dafny 4.11 and
proves what its numbers and events mean: what a map entry says about all events so far, what a torn
scrape may still claim, which rate limits hold, and which counts are conserved.

`dafny verify dfyconfig.toml` checks everything.

## How it is organised

- `Base`, `Config`, `Keys`: 64-bit arithmetic and the cooldown gate, effective thresholds, map keys.
- `Histogram`: bucketing of samples, and the exported cumulative histogram.
- `PerCpu`: per-CPU memory as cells, and the list of writes each handler makes in program order.
- `Writers`, `Pipeline`, `Scrape`: handlers whose writes land one at a time on many CPUs, and
  `Snapshot` reading one slot at a time in between.
- `Cooldown`: the gate in front of every rate-limited event, as a function of the history.
- `Retrans`, `TcpFlow`, `TcpLifecycle`, `UdpFlows`: the tables behind the TCP and UDP hooks, as step
  functions with theorems about whole runs.
- `Span`, `SpanHistogram`, `DnsMatcher`, `RunQueue`: matching a start to its finish and the histogram
  the matches fill, instantiated for DNS and for the scheduler.
- `Lookups`, `Gates`: matching, and the cooldown of one flow entry, with the read and the write of a
  handler as two steps of racing CPUs.
- `Gc`, `Expiry`: the expiry pass with its read and delete as separate steps, and the two expiring
  tables under it.
- `Parser`: the packet parser, an encoder, and DNS key symmetry.
- `Program`: the whole kernel program as one step machine. Every table module is a projection of it,
  so the theorems about tables, counters and histograms hold together of one run.
- `Schedule`: however the writes of the handlers a run of the program starts are interleaved in
  `Writers`, the per-CPU totals end up where the program has them.
- `Events`, `EventBooks`, `EventValues`: the events of each operation, and how many events a run
  raises with which values, against the counters and against the histories of the tables.
- `Hooks`: each operation field by field, with the numbers of the source: the entries it leaves, the
  events it submits, and how much each cell moves.
- `Collector`: the kernel program as a class. Its hooks update the maps in place, and each is proved
  to take one step of `Program`, with the per-CPU writes listed in `PerCpu` and its events.

A run is a sequence of operations; a theorem about a table quantifies over all of them, including
evictions and deletions at arbitrary points. Evictions by the kernel's LRU maps are operations of
their own, so any eviction policy is covered.

## Assumptions

- In the table modules and in `Program` a hook is one step: its lookups, its decisions, its update or
  delete. Two CPUs inside hooks for the same key at the same moment are modelled for matching in
  `Lookups` and for the cooldown of a UDP flow in `Gates`.
- Per-CPU writes are not one step: in `Writers` they land one by one, other CPUs run in between, and
  another handler on the same CPU may interrupt between two writes, in which case it finishes first.
  What is excluded is an interruption inside one increment.
- A handler stays on its CPU, and map lookups and ring-buffer reservations succeed. An event is an
  entry appended to a log.
- Timestamps are 64-bit. `last_event + cooldown` wraps as in C; theorems that need the deadline to
  fit say so, and `CooldownGateExact` says when it does. Counters and counts are unbounded integers.
- The clock is monotone only where a theorem says so. Burst soundness needs nothing about it, burst
  completeness needs strictly increasing timestamps within the segment it speaks about.
- An exhausted map iterator has returned every key that was in the map during the whole iteration.
- Thresholds are written once, before the programs are attached, and are read through
  `nd_get_config`, which replaces zeros.

## Where the code and its descriptions differ

Each description below fails for the runs named first, and holds exactly under the condition of the
lemma named after them.

- The bucket upper bound is called a conservative estimate of the sum
  (`internal/metrics/histogram.go:20-21`). One sample above 2^31 is enough to fall short
  (`EstimateMayFall`); it is conservative for all streams of samples up to m exactly when m is at most
  2^31 (`EstimateConservativeExactly`), which SRTT samples always are (`SrttSamplesInRange`).
- `ebpf_tcp_connect_attempts_total` is described as SYN-like transitions
  (`internal/metrics/collector.go:58`). An entry into NEW_SYN_RECV is one and is not
  counted (`NewSynRecvIsNoAttempt`); the counter is what it says exactly in runs that never enter
  NEW_SYN_RECV (`AttemptsAreSynTransitions`).
- `ebpf_tcp_connections_closed_total` is described as connections leaving ESTABLISHED
  (`internal/metrics/collector.go:55`). One established before attach is not counted
  (`EarlierConnectionIsNotClosed`); in chained runs the counter is what it says exactly when every
  connection that leaves was seen entering and not evicted since (`ClosedAreLeavers`), and
  `ClosedDeficit` says by how much it falls short.
- `ebpf_tcp_connections_short_lived_total` is described as connections shorter than the threshold
  (`internal/metrics/collector.go:57`). One that closes in the microsecond it was established in is
  not counted (`InstantCloseIsNotShort`), nor one whose entry is evicted
  (`EvictedConnectionIsNotShort`), and a transition from ESTABLISHED to itself makes a long one count
  (`SelfTransitionRestarts`). In chained runs with any evictions, and a connection's time counted from
  its traced entry into ESTABLISHED, the counter is what it says exactly when as many are missed as are
  added; without self-transitions none is added, and that is when each short connection was not
  evicted since it was seen entering and lived for a microsecond (`ShortLivedAreShorter`).
- `ebpf_udp_long_flows_total` is described as UDP flows exceeding the threshold
  (`internal/metrics/collector.go:71`), a flow being the packets of a key between two removals of its
  entry, so that an eviction cuts one in two (`RemovalCutsFlow`). A lasting flow is counted again after each cooldown
  (`LastingFlowRepeats`), and one that ends before the machine has been up for the cooldown is not
  counted (`EarlyFlowIsSilent`). With a monotone clock the counter is what it says exactly when as many
  events repeat as flows are silent (`LongFlowsExactly`, `UdpBooks`). With a threshold longer than the
  cooldown, as by default, no flow is silent, and that is when none keeps its entry and sees a packet
  more than a cooldown after one past threshold and cooldown (`CountedOnceExactly`).

Two more things the code does that a reader may not expect:

- A window drop is compared in 64 bits. With the product at 2^64 a collapse goes unreported
  (`CollapseMayBeMissed`); every real drop from a window is noticed exactly when the product fits or
  what wraps around is beyond any window (`DropsMeasuredExactly`). Nothing else is ever reported
  (`CwndDropSound`).
- A zero event time passes through the cooldown comparison like a real one. None of the four
  rate-limited events is raised before the machine has been up for longer than the cooldown, unless
  deadlines wrap and the clock runs backwards too (`BurstNeedsUptime`, `EventNeedsUptime`,
  `LongNeedsUptime`). A run that reaches the burst threshold
  in silence is `EarlyBurstIsSilent`, and which attempts raise an event, for each of the four, is
  `BurstExactly`, `EventExactly` and `LongExactly`.

## Model

| member | source | states |
|---|---|---|
| Base.CooldownGateExact | bpf/networkdoctor.bpf.c:805-806 | the wrapped comparison is the intended one for every current time exactly when the deadline fits in 64 bits |
| Config.GetConfig | bpf/networkdoctor.bpf.c:406-445 | each setting written nonzero is kept and each zero one takes its default, stated by value: 100 ms, 100 ms, 50 ms, 30 s, 5 ms, 1 s, 5 s, 3 and 50; no effective threshold is zero |
| Histogram.Log2Bucket | bpf/networkdoctor.bpf.c:447-458 | the scan returns the rounded-up logarithm capped at the last bucket: the least bucket whose bound covers the sample |
| Histogram.BucketBound | bpf/networkdoctor.bpf.c:447-458 | for every bound but the last, a sample's bucket is at most i exactly when the sample is at most 2^i |
| Histogram.EmitLog2Histogram | internal/metrics/histogram.go:13-35 | the total, the sum of the buckets weighted by 2^i, and 31 cumulative values keyed by distinct powers of two, each the sum of the buckets up to it |
| Histogram.ExportIsDirectCounting | internal/metrics/histogram.go:25-32 | for every sample stream the cumulative value at 2^i is the number of samples not above 2^i, and the total their number |
| Histogram.EstimateUpper | internal/metrics/histogram.go:17-23 | the estimated sum is at most twice the true sum plus the number of zero samples |
| Histogram.EstimateLower | internal/metrics/histogram.go:20-22 | the true sum is at most the estimate when every sample is at most 2^31 |
| Histogram.EstimateMayFall | internal/metrics/histogram.go:20-22 | one sample above 2^31 is estimated below its value |
| Histogram.EstimateConservativeExactly | internal/metrics/histogram.go:20-22 | the estimate is conservative for all streams of samples up to m exactly when m is at most 2^31 |
| PerCpu.TotalAfter | internal/bpf/reader.go:129-142 | whichever CPU a handler runs on, the cross-CPU total of a cell moves by the effect of its writes |
| Writers.HandlerBalanced | bpf/networkdoctor.bpf.c:717-727 | no handler lets a guarded counter get ahead of its buckets at any point of its run; four of the five counters end level |
| Writers.SlowGuardNeedsThreshold | bpf/networkdoctor.bpf.c:965-973 | slow responses are always bucketed exactly when the threshold is at least one microsecond |
| Writers.NextInv | bpf/networkdoctor.bpf.c:460-465 | starting a handler, interrupting one, or making one write keeps every counter covered on every CPU, with what is pending |
| Writers.GuardedAtAllTimes | bpf/networkdoctor.bpf.c:717-727 | in every reachable state the RTT, cwnd, long-flow, slow-DNS and rcode-error counters are covered by their buckets across CPUs; four are equal with nothing pending |
| Pipeline.NothingLost | bpf/networkdoctor.bpf.c:460-465 | in every reachable state a bucket's total plus its pending writes is the number of samples started that belong there |
| Pipeline.SrttSamplesInRange | bpf/networkdoctor.bpf.c:713-720 | no handler run of any schedule contributes an SRTT sample above 2^31, since the field is a 32-bit one shifted right by three |
| Pipeline.PipelineExact | internal/bpf/reader.go:121-142 | bucketing, summation over CPUs and the cumulative form together count samples directly once nothing is pending |
| Scrape.RunLater | bpf/networkdoctor.bpf.c:460-472 | as handlers run, no counter slot decreases and a state delta moves at most once per update |
| Scrape.SumOfReads | internal/bpf/reader.go:129-142 | slots read at different moments sum to a value between the true totals before and after, or for a gauge within the updates made meanwhile |
| Scrape.ScrapesNeverDecrease | internal/bpf/reader.go:21-40 | of two scrapes that do not overlap the later never shows a smaller counter or bucket |
| Scrape.CounterThenBuckets | internal/bpf/reader.go:21-40 | a guarded counter read before its buckets is at most their sum, however the handlers interleave |
| Scrape.FieldByField | internal/bpf/reader.go:21-40 | which cell each exported field reads: every counter its own, the gauges the deltas of states 1 and 6, the rcodes and five histograms index by index |
| Scrape.QuietSnapshotExact | internal/bpf/reader.go:21-40 | a snapshot while nothing runs holds, field by field, the true total of its own counter, rcode, bucket or state delta, states 1 and 6 for the two gauges; with nothing pending four guarded counters equal their buckets |
| Scrape.AddTcp | internal/bpf/reader.go:73-84 | the loop over CPU slots adds each of the eight fields to its own total |
| Scrape.AddDns | internal/bpf/reader.go:95-102 | the loop over CPU slots adds each of the four fields to its own total |
| Scrape.AddUdp | internal/bpf/reader.go:113-118 | the loop over CPU slots adds both fields to their own totals |
| Scrape.SumU64 | internal/bpf/reader.go:137-141 | the loop sums one value per CPU |
| Scrape.Scraper.LookupPerCpu | internal/bpf/reader.go:144-158 | every field of every CPU slot is read once, each within the interval of the lookup |
| Scrape.Scraper.SumPerCpu | internal/bpf/reader.go:49-63 | a per-CPU cell read and summed under interference obeys the interval bound |
| Scrape.Scraper.SumTcpCounters | internal/bpf/reader.go:65-85 | all eight TCP totals obey the interval bound |
| Scrape.Scraper.SumDnsCounters | internal/bpf/reader.go:87-103 | all four DNS totals obey the interval bound |
| Scrape.Scraper.SumUdpCounters | internal/bpf/reader.go:105-119 | both UDP totals obey the interval bound |
| Scrape.Scraper.SumCells | internal/bpf/reader.go:121-127 | cells read one after another, as the histogram and rcode loops do, each obey the interval bound |
| Scrape.Scraper.ReadCounters | internal/bpf/reader.go:21-31 | DNS counters, rcodes, TCP and UDP counters and the deltas of states 1 and 6 in this order, each within its interval; rcode errors never exceed the nonzero rcodes read after them |
| Scrape.Scraper.TakeSnapshot | internal/bpf/reader.go:19-40 | for every interleaving each exported field obeys the interval bound of its own cell, ESTABLISHED that of state 1 and TIME_WAIT that of state 6, and the five guarded counters are covered by their buckets; without interference all values are the true totals, and at rest the coverage is exact |
| Scrape.Scraper.CollectHistogram | internal/metrics/collector.go:110-138 | even torn, total, sum and every cumulative value are bounded above by direct counting of the samples started by the end, and below by that of the samples up to a quiet start; the sum of SRTT samples is never understated; at rest both bounds meet |
| Retrans.EntryDescribes | bpf/networkdoctor.bpf.c:788-813 | after any run an entry speaks about exactly the most recent count retransmits of its flow, all within one window of first_seen |
| Retrans.BurstSound | bpf/networkdoctor.bpf.c:795-811 | with any evictions and any clock, a burst of value c means c reaches the threshold and the last c retransmits of the flow lie within the window |
| Retrans.BurstComplete | bpf/networkdoctor.bpf.c:788-813 | for threshold k, max(1, 2k-2) undisturbed retransmits within one window length reach the threshold at some step, which bursts unless in cooldown |
| Retrans.OneFewerIsNotEnough | bpf/networkdoctor.bpf.c:796-803 | for every k of at least 2 and every window of at least 2k-4 that leaves room for k-1 more timestamps below 2^64, some run ends in 2k-3 retransmits within the window and never reaches the threshold |
| Retrans.WindowHolds | bpf/networkdoctor.bpf.c:797-798 | narrower windows cannot hold that many strictly increasing timestamps |
| Retrans.BurstExactly | bpf/networkdoctor.bpf.c:805-811 | a retransmit over the threshold raises a burst exactly after the deadline of the latest burst its entry remembers, or, with none, once the machine has been up for longer than the cooldown |
| Retrans.BurstNeedsUptime | bpf/networkdoctor.bpf.c:805-806 | no burst is raised before that, unless deadlines wrap and the clock runs backwards too |
| Retrans.EarlyBurstIsSilent | bpf/networkdoctor.bpf.c:805-806 | a run that reaches the threshold before that, in silence |
| Retrans.BurstsSpaced | bpf/networkdoctor.bpf.c:805-811 | two bursts of one flow are more than the cooldown apart unless its entry was evicted in between or a deadline wraps |
| Retrans.BurstsApart | bpf/networkdoctor.bpf.c:788-811 | with strictly increasing timestamps and deadlines that do not wrap, two bursts of one flow keep a distance whatever is evicted: the threshold count, or cooldown + 1 if that is less and the window is long enough for it |
| Retrans.BurstGapAttained | bpf/networkdoctor.bpf.c:788-811 | some run attains that distance, through an eviction unless the cooldown is the shorter one, exactly for the settings whose window can hold the threshold count and that leave room for two bursts and their deadlines below 2^64 |
| TcpFlow.EntryIsHistory | bpf/networkdoctor.bpf.c:733-749 | an entry holds the latest sample, the window of the one before, the retransmits counted since it exists and the last activity |
| TcpFlow.CwndDropSound | bpf/networkdoctor.bpf.c:757-764 | a window-drop event is a drop to the stated percentage between the two latest samples of the flow, both nonzero, for any percentage |
| TcpFlow.DropsMeasuredExactly | bpf/networkdoctor.bpf.c:758-760 | the 64-bit comparison notices every real drop from a window exactly when the product fits, or what is left after wrapping is beyond any window |
| TcpFlow.CollapseMayBeMissed | bpf/networkdoctor.bpf.c:758-760 | a run in which a drop from 2^31 to 1 goes unreported |
| TcpFlow.EventExactly | bpf/networkdoctor.bpf.c:751-764 | a slow RTT or a window drop is reported exactly after the deadline of the latest event of its kind the entry remembers, or, with none, once the machine has been up for longer than the cooldown |
| TcpFlow.EventNeedsUptime | bpf/networkdoctor.bpf.c:751-764 | neither event is raised before that, unless deadlines wrap and the clock runs backwards too |
| TcpFlow.EventsSpaced | bpf/networkdoctor.bpf.c:751-764 | slow-RTT events, and window-drop events, of one flow are more than the cooldown apart while its entry lives and deadlines do not wrap |
| TcpLifecycle.Telescope | bpf/networkdoctor.bpf.c:642-643 | for any set of states, entries minus exits over a chained run is the sockets in it now minus those first seen leaving it |
| TcpLifecycle.DeltaCounts | bpf/networkdoctor.bpf.c:614-621 | in every run, chained or not, the exported delta of a state is its entries minus its exits |
| TcpLifecycle.GaugeTelescopes | internal/bpf/reader.go:49-63 | the cross-CPU gauge of a state is the sockets last traced in it minus the sockets first seen leaving it |
| TcpLifecycle.SlotsMayBeNegative | internal/bpf/reader.go:58-62 | the slot of one CPU may be negative while the sum is right |
| TcpLifecycle.StateSumZero | bpf/networkdoctor.bpf.c:614-643 | with all states inside the array the sum over all states stays zero |
| TcpLifecycle.LifeConserved | bpf/networkdoctor.bpf.c:652-687 | in every run each entry written was closed, evicted, replaced, or is live |
| TcpLifecycle.LifeIsEstablished | bpf/networkdoctor.bpf.c:652-687 | in chained runs a tracked connection is in ESTABLISHED, and without eviction exactly those are tracked |
| TcpLifecycle.LifeSinceLastEntry | bpf/networkdoctor.bpf.c:652-674 | the lifetime of a tracked connection counts from its latest entry into ESTABLISHED |
| TcpLifecycle.ConnectionsConserved | bpf/networkdoctor.bpf.c:652-687 | in chained runs, entries into ESTABLISHED are the closed, live and evicted connections exactly when no self-transition created an entry |
| TcpLifecycle.EstablishedGauge | bpf/networkdoctor.bpf.c:642-687 | without eviction the ESTABLISHED gauge is the number of tracked connections minus the sockets established before attach that left |
| TcpLifecycle.ShortLivedAreClosed | bpf/networkdoctor.bpf.c:676-682 | between handler runs short-lived connections are among the closed ones |
| TcpLifecycle.ShortLivedAreShorter | bpf/networkdoctor.bpf.c:652-684 | in chained runs with any evictions the short-lived counter differs from the connections shorter than the threshold by those missed and those a self-transition added; without self-transitions it is them exactly when each was not evicted since it was seen entering and lived for a microsecond, and less otherwise |
| TcpLifecycle.ShortLivedAreTimed | bpf/networkdoctor.bpf.c:652-684 | the short-lived counter in terms of the history: connections not evicted since they were seen entering that leave between one microsecond and the threshold later |
| TcpLifecycle.EvictedConnectionIsNotShort | bpf/networkdoctor.bpf.c:668-684 | a short connection whose entry is evicted is not counted |
| TcpLifecycle.SelfTransitionRestarts | bpf/networkdoctor.bpf.c:652-684 | a self-transition makes a long connection count as short-lived |
| TcpLifecycle.InstantCloseIsNotShort | bpf/networkdoctor.bpf.c:672-682 | a connection that closes at once is not counted as short-lived |
| TcpLifecycle.TrackedIsSeenEntering | bpf/networkdoctor.bpf.c:652-684 | in chained runs with any evictions a socket is tracked exactly when the latest thing that happened to it was its entry into ESTABLISHED |
| TcpLifecycle.ClosedAreLeavers | bpf/networkdoctor.bpf.c:668-687 | the closed counter is the connections leaving ESTABLISHED exactly when each was seen entering and not evicted since; otherwise it is less |
| TcpLifecycle.ClosedDeficit | bpf/networkdoctor.bpf.c:668-687 | by how much: sockets first seen leaving and evicted entries, less entries of self-transitions and untracked established sockets |
| TcpLifecycle.EarlierConnectionIsNotClosed | bpf/networkdoctor.bpf.c:668-687 | a connection established before attach leaves and is not counted |
| TcpLifecycle.AttemptsAreSynTransitions | bpf/networkdoctor.bpf.c:645-646 | the attempt counter is the SYN-like transitions exactly in runs that never enter NEW_SYN_RECV |
| TcpLifecycle.ConnectsByState | bpf/networkdoctor.bpf.c:623-694 | over any run attempts are the transitions into state 2 or 3 and failures those from state 2, 3 or 12 to 7 |
| TcpLifecycle.NewSynRecvIsNoAttempt | bpf/networkdoctor.bpf.c:645-646 | an entry into NEW_SYN_RECV is a SYN-like transition and no attempt |
| TcpLifecycle.ConnectsAccounted | bpf/networkdoctor.bpf.c:645-694 | failed and successful connects are covered by attempts, sockets first seen in a SYN-like state and entries into NEW_SYN_RECV |
| Span.EntriesAreOpenStarts | bpf/networkdoctor.bpf.c:929-975 | the start map holds a key exactly when a start of it is open, with the time of that start |
| Span.FinishMeasures | bpf/networkdoctor.bpf.c:959-963 | a finish finds an entry exactly when an open start precedes it, and measures from that start |
| Span.MatchingIsInjective | bpf/networkdoctor.bpf.c:959-975 | with lookup and delete in one step, each start gives at most one measurement, each finish uses one start |
| Span.StartsConserved | bpf/networkdoctor.bpf.c:929-975 | every start was matched, overwritten, expired, evicted or is open |
| Lookups.MeasuredOnceExactly | bpf/networkdoctor.bpf.c:959-975 | with lookup and delete apart, on any number of CPUs, every start is measured at most once exactly when no lookup finds an entry another handler has found and not deleted yet |
| Lookups.MeasurementsBounded | bpf/networkdoctor.bpf.c:959-975 | measurements never exceed lookups, and stay within the starts when no lookup is contended |
| Lookups.OneStartTwice | bpf/networkdoctor.bpf.c:959-975 | two responses handled at the same moment measure one query twice |
| Lookups.StartsConserved | bpf/networkdoctor.bpf.c:929-975 | with lookup and delete apart, every start is measured once or more, overwritten, dropped, lost to a handler that deletes it for an earlier one, or waits |
| Lookups.NoneLostExactly | bpf/networkdoctor.bpf.c:959-975 | no start is lost exactly when no handler deletes one written after its lookup that nobody has looked up |
| Lookups.SecondStartLost | bpf/networkdoctor.bpf.c:929-975 | a second query between lookup and delete of the first response is deleted unmeasured |
| Gates.RateLimitSurvives | bpf/networkdoctor.bpf.c:893-904 | with the read and the write of the event time apart, on any number of CPUs, events stay more than the cooldown apart when no handler passes while another owes its write; for handlers that take no longer than the cooldown, exactly then |
| Gates.ReportedTwice | bpf/networkdoctor.bpf.c:897-904 | two packets handled at the same moment report one flow twice |
| SpanHistogram.CumulativeIsMatched | bpf/networkdoctor.bpf.c:447-458 | where each bucket holds the matches that land in it, the cumulative value at 2^i is the matches that took at most 2^i microseconds |
| DnsMatcher.PendingIsSpanMap | bpf/networkdoctor.bpf.c:919-976 | nd_dns_pending is the start map of the query history |
| DnsMatcher.BucketIsMatched | bpf/networkdoctor.bpf.c:960-968 | each latency bucket counts exactly the matched responses whose latency falls into it |
| DnsMatcher.SlowIsMatched | bpf/networkdoctor.bpf.c:970-973 | slow_total counts exactly the matched responses at or above the threshold |
| DnsMatcher.LatencyIsDirectCounting | bpf/networkdoctor.bpf.c:960-968 | the cumulative value of the latency histogram at 2^i is the matched responses that came within 2^i microseconds of their query, and at least one |
| DnsMatcher.DnsAccounts | bpf/networkdoctor.bpf.c:919-977 | with each response one step, query_total is matched, overwritten, collected, evicted and pending queries; slow, bucketed, matched, and the smaller of queries and responses form a chain |
| RunQueue.StartIsSpanMap | bpf/networkdoctor.bpf.c:996-1052 | nd_runq_start is the start map of the wakeup history |
| RunQueue.BucketIsMatched | bpf/networkdoctor.bpf.c:1036-1044 | each run-queue bucket counts exactly the switches whose time since the open wakeup falls into it |
| RunQueue.RunqlatIsDirectCounting | bpf/networkdoctor.bpf.c:1036-1044 | the cumulative value of the run-queue histogram at 2^i is the switches later than their wakeup, but within 2^i microseconds |
| RunQueue.WakeupsConserved | bpf/networkdoctor.bpf.c:996-1052 | recorded wakeups are histogram samples, overwritten wakeups, zero-elapsed discards, evicted and waiting entries |
| UdpFlows.EntryIsGeneration | bpf/networkdoctor.bpf.c:876-891 | an entry exists while packets have arrived since its last removal, and holds their number, bytes, first and last time |
| UdpFlows.EntriesOrdered | bpf/networkdoctor.bpf.c:889-904 | first_seen, last_seen and last_event of every live flow are in order, and no event precedes the long-flow threshold |
| UdpFlows.EventReportsSpan | bpf/networkdoctor.bpf.c:893-904 | the duration an event reports is the time from the first packet of its flow since the last removal to the packet that raises it |
| UdpFlows.DurationsAreSpans | bpf/networkdoctor.bpf.c:893-904 | the durations reported in a run are the spans of the reported flows, in order |
| UdpFlows.LongFlowsSpaced | bpf/networkdoctor.bpf.c:893-904 | with a monotone clock and deadlines that do not wrap, two long-flow events of one key are at least min(cooldown + 1, threshold) apart under any packets, deletions and evictions |
| UdpFlows.GapAttained | bpf/networkdoctor.bpf.c:893-904 | some run attains that distance, through a removal when the cooldown is the longer one, exactly for the settings that leave room for two events and their deadlines below 2^64 |
| UdpFlows.LongFlowRate | bpf/networkdoctor.bpf.c:893-904 | any interval of length L holds at most L divided by that distance, plus one, events of one key |
| UdpFlows.LongExactly | bpf/networkdoctor.bpf.c:893-904 | a packet on a flow over the threshold raises an event exactly after the deadline of the latest event its entry remembers, or, with none, once the machine has been up for longer than the cooldown |
| UdpFlows.LongNeedsUptime | bpf/networkdoctor.bpf.c:897-898 | no event is raised before that, unless deadlines wrap and the clock runs backwards too |
| UdpFlows.LongFlowsExactly | bpf/networkdoctor.bpf.c:893-904 | with a monotone clock, events and silent flows together are the flows that exceed the threshold and the repeated events, so the events are those flows exactly when as many repeat as are silent; none is silent with a threshold longer than the cooldown |
| UdpFlows.RepeatsExactly | bpf/networkdoctor.bpf.c:893-904 | an event repeats exactly when some flow past threshold and first cooldown keeps its entry and sees a packet more than a cooldown later |
| UdpFlows.CountedOnceExactly | bpf/networkdoctor.bpf.c:893-904 | with a threshold longer than the cooldown the events are the flows that exceed the threshold exactly when none lasts in that way |
| UdpFlows.EarlyFlowIsSilent | bpf/networkdoctor.bpf.c:897-898 | a flow over the threshold that ends within the first cooldown raises nothing |
| UdpFlows.RemovalCutsFlow | bpf/networkdoctor.bpf.c:876-895 | packets the threshold apart with a removal in between raise nothing |
| UdpFlows.LastingFlowRepeats | bpf/networkdoctor.bpf.c:897-904 | one flow over the threshold that lasts raises two events |
| UdpFlows.PacketsConserved | bpf/networkdoctor.bpf.c:874-891 | the packets of a run are those of live flows plus those flows held when they were removed |
| Gc.RunInv | internal/bpf/gc.go:43-87 | what a pass has read, skipped or deleted stays as described while handlers keep writing, over every interleaving |
| Gc.BoundedStaleness | internal/bpf/gc.go:43-63 | at every reachable time no entry is older than the timeout plus the time since the last completed pass sampled the clock, or since the start while there was none, even with split reads and deletes |
| Gc.DeletionIsJustified | internal/bpf/gc.go:50-57 | an entry up for deletion was over age when read, without underflow; its key is stale still or was rewritten during the pass |
| Gc.ActExactly | internal/bpf/gc.go:50-57 | an entry read is deleted exactly when its stamp is nonzero and more than the timeout before the clock sample; a delete is reported even when the key is gone |
| Gc.ReportedCoversRemoved | internal/bpf/gc.go:53-57 | the reported number is at least the real removals |
| Gc.ReportedExactly | internal/bpf/gc.go:53-57 | the reported number is the real removals plus the deletes that found the key gone |
| Gc.RefreshMayBeLost | internal/bpf/gc.go:74-81 | an entry refreshed between read and delete may be deleted |
| Gc.SharedMap.Collect | internal/bpf/gc.go:43-87 | the loop is a run of the step machine, and returns what the machine reports |
| Expiry.FlowsUnderCollection | internal/bpf/gc.go:65-87 | packets, evictions and the collector on one clock: the rate limit holds and idle time is bounded |
| Expiry.QueriesUnderCollection | internal/bpf/gc.go:41-63 | queries, responses, evictions and the collector on one clock: query_total is conserved with the collector's real removals, and pending age is bounded |
| Parser.ParseEncode | bpf/networkdoctor.bpf.c:829-872 | every encoded unfragmented frame with a header of 5 to 15 words parses to its addresses, ports and DNS header |
| Parser.AcceptedIsEncoded | bpf/networkdoctor.bpf.c:829-856 | every accepted buffer is the encoding of a well-formed frame, so all headers read lie inside it |
| Parser.FieldsByOffset | bpf/networkdoctor.bpf.c:829-872 | which buffers are accepted, byte by byte, and at which offset each field is read |
| Parser.ClassifyEncoded | bpf/networkdoctor.bpf.c:914-946 | a frame is a query or response exactly by its port and QR bit, with the key and rcode of its fields |
| Parser.NotDnsExactly | bpf/networkdoctor.bpf.c:907-946 | which frames are neither query nor response: those off port 53, shorter than a DNS header, or with the QR bit against the port |
| Parser.FlowOfFrame | bpf/networkdoctor.bpf.c:863-872 | the flow of a frame is its interface, addresses, ports, direction and protocol 17 |
| Parser.SameFlow | bpf/networkdoctor.bpf.c:863-872 | two frames share a flow exactly when interface, direction, addresses and ports agree |
| Parser.ResponseFindsQuery | bpf/networkdoctor.bpf.c:919-946 | a response looks up the key a query inserted exactly when it answers that query on the same interface |
| Cooldown.FiresExactly | bpf/networkdoctor.bpf.c:805-806 | which attempts pass the gate, in terms of the latest event and of resets alone |
| Cooldown.Spaced | bpf/networkdoctor.bpf.c:805-810 | two events are more than the cooldown apart unless the entry was lost in between or a deadline wraps |
| Program.TablesAreProjections | bpf/networkdoctor.bpf.c:630-1053 | in every run of all hooks together each of the six maps is the table its module describes |
| Program.UdpBooks | bpf/networkdoctor.bpf.c:874-905 | over runs of the whole program, the per-CPU packet_total is the packets held by live and deleted flows, long_flow_total and silent flows are the flows exceeding the threshold and the repeated events, and the duration histogram counts the reported durations directly, which are the spans of the reported flows from their first packet |
| Program.RetransTotals | bpf/networkdoctor.bpf.c:779-811 | retrans_total and retrans_burst_total across CPUs are the retransmits and the bursts of the detector's history |
| Program.DnsBooks | bpf/networkdoctor.bpf.c:919-977 | over runs of the whole program, the DNS counters account for every query, nest, and the latency histogram counts matched responses directly |
| Program.LifeBooks | bpf/networkdoctor.bpf.c:652-687 | over runs of the whole program, entries into ESTABLISHED are closed, live, evicted or replaced |
| Program.GaugeBooks | bpf/networkdoctor.bpf.c:642-643 | over runs of the whole program, the gauge of a state is the sockets last traced in it minus those first seen leaving it |
| Program.RunqBooks | bpf/networkdoctor.bpf.c:996-1052 | over runs of the whole program, recorded wakeups are accounted for and the run-queue histogram counts latencies directly |
| Schedule.ProgramIsSchedule | bpf/networkdoctor.bpf.c:460-472 | starting each handler and making its writes one by one leads to the memory of the program, with nothing pending |
| Schedule.EveryScheduleAgrees | bpf/networkdoctor.bpf.c:460-472 | whatever order the handlers of a run start in and their writes land in, what has landed and what is pending are the program's totals for every cell |
| Schedule.UdpBooksInterleaved | bpf/networkdoctor.bpf.c:874-905 | the UDP books, spans included, hold of every interleaving once nothing is pending |
| Schedule.DnsBooksInterleaved | bpf/networkdoctor.bpf.c:919-977 | so do the DNS books |
| Schedule.GaugeInterleaved | internal/bpf/reader.go:49-63 | so does the gauge of every state |
| Schedule.ExportedFromProgram | internal/bpf/reader.go:121-142 | over runs of the program the exported histograms count the samples its hooks took, and the guarded counters are covered by their buckets, four exactly |
| Hooks.RetransmitHook | bpf/networkdoctor.bpf.c:772-822 | the window of the flow with its restart, the burst condition in wrapped arithmetic, the entry left, the event with its count, and the touched flow entry |
| Hooks.RetransmitCells | bpf/networkdoctor.bpf.c:779-811 | the hook adds one to retrans_total, one to the burst counter with the event, and moves nothing else on any CPU |
| Hooks.ReceivedHook | bpf/networkdoctor.bpf.c:729-768 | the flow entry a sample leaves, and the conditions, values and order of its two events |
| Hooks.ReceivedCells | bpf/networkdoctor.bpf.c:713-727 | a nonzero RTT and a nonzero window each fill one bucket and one sample counter; nothing else moves |
| Hooks.SetStateHook | bpf/networkdoctor.bpf.c:646-697 | the connection map after a transition, and exactly when it reports a short connection or a failed connect, by state number |
| Hooks.SetStateCells | bpf/networkdoctor.bpf.c:642-691 | how a transition moves every cell: both deltas, attempts, closes, short closes and failures, by state number |
| Hooks.PacketFlow | bpf/networkdoctor.bpf.c:874-905 | the flow entry a packet leaves, and exactly when and with which duration and packet count it reports |
| Hooks.PacketDns | bpf/networkdoctor.bpf.c:907-977 | the pending map after a packet, and exactly which of the two DNS events it reports, with their values |
| Hooks.PacketCells | bpf/networkdoctor.bpf.c:858-905 | a packet adds one to packet_total, a bucket and long_flow_total when it reports, and what its DNS part adds |
| Hooks.DnsPartCells | bpf/networkdoctor.bpf.c:919-973 | how the DNS part moves every cell: queries, responses, the code, errors, the latency bucket and slow_total |
| Hooks.SwitchHook | bpf/networkdoctor.bpf.c:1024-1053 | the start map after a switch, and exactly when and with which latency it reports |
| Hooks.SwitchCells | bpf/networkdoctor.bpf.c:1036-1044 | a switch fills the bucket of the elapsed microseconds when the clock has advanced, and nothing else |
| EventBooks.EventsMatchCounters | bpf/networkdoctor.bpf.c:623-973 | over any run the bursts, short connections, failed connects, long flows, slow responses and rcode errors submitted are as many as their counters say, for each rcode too |
| EventBooks.HighRunqlatExactly | bpf/networkdoctor.bpf.c:1036-1049 | over any run the latencies reported, under any condition on the value, are those of the switches later than their wakeup by the threshold or more |
| EventValues.LongFlowsCarry | bpf/networkdoctor.bpf.c:893-904 | over any run every long-flow event carries its flow, the time the flow spans and the number of its packets |
| EventValues.BurstsCarry | bpf/networkdoctor.bpf.c:805-811 | over any run every burst event carries its flow, the count BurstSound describes, and the configured window |
| EventValues.SamplesCarry | bpf/networkdoctor.bpf.c:741-765 | over any run slow-RTT events carry the RTT and window of their sample, window-drop events the window of their sample and of the one before |
| EventValues.ConnectionsCarry | bpf/networkdoctor.bpf.c:652-697 | over chained runs short-connection events carry the time since the connection was last traced entering; over any run failure events carry the two states |
| EventValues.ResponsesCarry | bpf/networkdoctor.bpf.c:948-977 | over any run slow-DNS events carry the time since the query they answer and the code, rcode events the code |
| Collector.Collector.TcpRetransmitSkb | bpf/networkdoctor.bpf.c:772-822 | the hook takes one step of the program: retransmit and flow tables, counters and burst event; other address families are ignored |
| Collector.Collector.TcpRcvEstablished | bpf/networkdoctor.bpf.c:701-768 | the hook takes one step of the program: both histograms sampled bucket first with the RTT field divided by eight, the flow updated, its two events raised |
| Collector.Collector.InetSockSetState | bpf/networkdoctor.bpf.c:630-697 | the hook takes one step of the program: deltas, counters, connection map and events of a transition |
| Collector.Collector.SchedWakeup | bpf/networkdoctor.bpf.c:996-1008 | the hook takes one step of the program: it records the wakeup, except for pid 0 |
| Collector.Collector.SchedSwitch | bpf/networkdoctor.bpf.c:1024-1053 | the hook takes one step of the program: it consumes the wakeup, buckets the latency if the clock advanced, and reports the elapsed microseconds exactly when they reach the threshold |
| Collector.Collector.TcPacket | bpf/networkdoctor.bpf.c:826-980 | a packet is ignored when the parser refuses it; otherwise the hook takes one step of the program: flow, pending map, counters and events |

## Left out

- DnsMatcher.DnsAccounts: a response is one step; two CPUs between the lookup and the delete for one query at the same moment are outside its books. Lookups.StartsConserved, MeasuredOnceExactly and NoneLostExactly are the books with the two apart.
- Span.MatchingIsInjective: the same; Lookups.MeasuredOnceExactly is the statement without that restriction.
- Program.DnsBooks: the same.
- Program.TablesAreProjections: each hook is one step on the maps; only per-CPU writes are interleaved finer, in Writers and Schedule.
- UdpFlows.LongFlowsSpaced: one packet of a flow is handled at a time; Gates.RateLimitSurvives says when the limit survives two CPUs inside the handler, for one life of the entry.
- UdpFlows.PacketsConserved: packets lost to concurrent increments of a shared entry are not modelled.
- Expiry.FlowsUnderCollection: a handler holding a pointer to an entry that is deleted and reused meanwhile is not modelled.
- Histogram.EmitLog2Histogram: exported floating-point values are integers here; the keys are powers of two and exact, rounding of large sums is not modelled.
- TcpLifecycle.LifeConserved: of nd_tcp_conn_life only the start time is kept; the other fields are written and never read.
- Counter wrap-around at 2^64, and increments lost when a CPU is interrupted inside one.
- Lookup, delete and iterator errors in userspace, which skip or zero a value and log.
- Loading and attaching programs, TC filters, signal handling and flags: calls into other systems.
- Ring-buffer decoding and event logging in userspace; event timestamps and process ids.
- The Prometheus registry, descriptors and HTTP server.
- Reading socket fields in the kernel: address family, addresses, ports, RTT and window are parameters of the hooks.
- The diagnosis backend described in the repository's documents, which is not in its code.
