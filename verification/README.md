# Verified model of the eBPF storage tracer

A Dafny model of the logic at the centre of android-ebpf-studio, which traces storage requests on
Android devices: the kernel probes that follow a request from file operation to completion, the agent
that switches filters and keeps bounded summaries, and the desktop's derived views. `dafny verify
dfyconfig.toml` checks everything.

| module | what it is about |
|---|---|
| `FilterSwitch`, `FilterAgent` | changing the kernel filter one map write at a time while probes read it |
| `Btf`, `BtfLayout` | the two decoders of kernel type information |
| `OpaqueKey` | hiding kernel addresses without losing the pairing of issues and completions |
| `Extents` | finding the file behind a block request through device-mapper remaps |
| `OriginLink`, `BlockRequests`, `RawCompletion`, `Syscalls` | the kernel-side protocols |
| `Aggregates` | per-CPU counters, histograms and their merge |
| `StagePairing`, `HeavyHitters`, `FlightRecorder` | the agent's bounded live state |
| `AddressSweep`, `FileEvidence`, `ActivitySeries`, `BoundedLines` | the desktop's derived data and its input |

Form. Code that updates fields, maps or queues is a class (or a method with a loop) proved equal to a
step function; what the system promises is then proved about every run of that step function. Wherever
possible the reference is stated on the history alone: which earlier event an answer comes from, and what
may not have happened in between.

Conventions. A kernel probe is one atomic step, except in `FilterSwitch`, where each map access is a
step. What the kernel may refuse (a map insertion, a ring reservation, a memory read) is a boolean input
of the step, so the theorems hold for every pattern of failures. UTF-8 validity is a parameter. Device
numbers, sectors and times are 64- or 32-bit values with the source's saturating and wrapping operations
written out; counters are unbounded unless the row says otherwise.

Properties that the code does not have in general come with a failing input and the exact condition under
which it has them:

- A filter's upper size limit of zero means no limit, a device outside 12 + 20 bits is truncated when
  staged, and `match_all` is staged but read by no probe, so a filter without keys lets everything through
  (`EmptyFilterPasses`); `IntentHonoured` gives the condition for the staged filter to mean what the
  configuration says. It takes the design note's reading (`.goal/changes/adaptive-ebpf-analysis/design.md`,
  line 20): without keys `match_all` decides. The desktop sends size-only filters with `match_all` false, and
  for those the kernel's behaviour is the useful one.
- Staging a generation again after a failed attempt inherits the keys of that attempt
  (`ReusedGenerationLeaks`); `StagingExactIff` says exactly when it does no harm.
- An issue of zero sectors inside an extent matches without sharing a sector (`EmptyIssueMatches`,
  `MatchMeansOverlap`).
- Total latency is queue plus device latency unless the insert is stamped after the issue
  (`LatencyDoesNotSplit`, `LatencySplitIff`).
- A report lost in the ring is forgotten when its CPU takes a note of another generation (`LossForgotten`);
  `LossesCounted` says which are counted.
- Merging windows can select a file record that ends before it starts (`StraddlingDiffers`);
  `IndexExactIff` gives the records it never affects.
- The flight recorder can keep a stale record or drop a fitting one when the clock turns around
  (`StaleKept`, `DipInexact`, `PeakInexact`); `WindowExactIff` says for which timestamps it is exact.

## Model

| member | source | states |
|---|---|---|
| `FilterSwitch.WritesShape` | crates/android-agent/src/main.rs:766-843 | a staging writes every key of the configuration's five dimensions and no other, then the configuration, then the active generation |
| `FilterSwitch.KeyWriteKeeps` | crates/android-agent/src/main.rs:833-843 | writing one more key of a generation under way disturbs no published generation and no probe in the middle of its lookups |
| `FilterSwitch.ConfigWriteKeeps` | crates/android-agent/src/main.rs:804-825 | the configuration record appears only when all its keys are in place |
| `FilterSwitch.ActivateKeeps` | crates/android-agent/src/main.rs:823-829 | the generation made active is completely published |
| `FilterSwitch.ProbeStepKeeps` | crates/android-ebpf/src/main.rs:1426-1474 | each lookup of a probe still agrees with the pure predicate of the generation it read first |
| `FilterSwitch.RunKeeps` | crates/android-agent/src/main.rs:1449-1467 | the invariant of kernel maps, staging, probes and agent holds in every state of every run with any failures, and each new acknowledgement is true when sent |
| `FilterSwitch.SwitchIsAtomic` | crates/android-ebpf/src/main.rs:1426-1474 | in every interleaving, each finished filter decision equals the pure predicate of the one configuration whose generation was active at the probe's single read of it |
| `FilterSwitch.CommandsAgree` | crates/android-agent/src/main.rs:1973-2012 | between commands the kernel's maps hold exactly the agent's configuration under the active generation and decide every request as it says; acknowledgements name the active generation, and applied generations strictly increase |
| `FilterSwitch.RepresentableAgrees` | crates/android-agent/src/main.rs:786-822 | a representable configuration is decided by the kernel exactly as it reads |
| `FilterSwitch.IntentHonoured` | crates/android-agent/src/main.rs:786-822 | the staged filter and the configuration as written agree on all requests if and only if a filter without keys says `match_all`, no zero upper limit is asked for and no device is lost to truncation (or only the collector itself is admitted) |
| `FilterSwitch.EmptyFilterPasses` | crates/protocol/src/lib.rs:984-1004 | the default filter, without keys and without `match_all`, is valid and lets every request through |
| `FilterSwitch.StagingExactIff` | crates/android-agent/src/main.rs:766-843 | completing a staging publishes exactly the configuration if and only if the keys already present under its generation are wanted by it |
| `FilterSwitch.ReusedGenerationLeaks` | crates/android-agent/src/main.rs:766-843 | a concrete generation staged twice that lets a process through against its filter |
| `FilterAgent.PrefixKeepsActive` | crates/android-agent/src/main.rs:766-830 | no incomplete prefix of a staging moves the active generation |
| `FilterAgent.FilterMaps.InsertValues` | crates/android-agent/src/main.rs:833-843 | inserts a dimension's keys in order, stopping exactly at the first failing write |
| `FilterAgent.FilterMaps.StageKeys` | crates/android-agent/src/main.rs:771-803 | the key maps hold exactly the key writes performed before the failure, or all |
| `FilterAgent.FilterMaps.Apply` | crates/android-agent/src/main.rs:766-830 | performs the longest prefix of the staging that the failures allow and reports success exactly when that is all of it; file filters are refused untouched |
| `FilterAgent.Agent.ApplyControlCommand` | crates/android-agent/src/main.rs:1973-2012 | an accepted command replaces the configuration; a stale or invalid one leaves it alone and says so |
| `FilterAgent.Agent.HandleCommand` | crates/android-agent/src/main.rs:1449-1467 | however many writes succeed, configuration, acknowledgement and kernel generation agree afterwards; on failure the old configuration is back |
| `Btf.WordInverse` | crates/android-agent/src/block_btf.rs:44-55 | four bytes and a 32-bit word determine each other in either byte order |
| `Btf.WordsInverse` | crates/android-agent/src/block_btf.rs:96-104 | reading n words is the inverse of encoding them |
| `Btf.AcceptedIsEncoding` | crates/android-agent/src/block_btf.rs:76-111 | every type section the reader accepts is the encoding of well-formed records, to the last byte |
| `Btf.EncodingIsAccepted` | crates/android-agent/src/block_btf.rs:76-111 | every encoding of well-formed records is accepted and gives those records back |
| `Btf.ReadPayload` | crates/android-agent/src/block_btf.rs:96-104 | the pushed words are those of the payload |
| `Btf.ReadOne` | crates/android-agent/src/block_btf.rs:76-111 | one record: same outcome and same error as the reference step |
| `Btf.Read` | crates/android-agent/src/block_btf.rs:35-111 | the cursor loop terminates and equals the reference reader on every blob |
| `Btf.ReadIff` | crates/android-agent/src/block_btf.rs:35-111 | the reader returns a result if and only if the header is sound and the type section is exactly an encoding of it |
| `Btf.HeaderSections` | crates/android-agent/src/block_btf.rs:35-67 | the header of an encoded blob gives back its sections |
| `Btf.RoundTrip` | crates/android-agent/src/block_btf.rs:35-111 | any well-formed list of types encoded in either byte order is read back as that list after the void entry |
| `BtfLayout.SizesAgree` | crates/android-agent/src/btf_layout.rs:148-163 | the two decoders' payload size tables are the same function |
| `BtfLayout.CollectMembers` | crates/android-agent/src/btf_layout.rs:88-107 | the member loop collects what the reference member walk says |
| `BtfLayout.CollectRecord` | crates/android-agent/src/btf_layout.rs:65-111 | one record of the walk, with the reference's next position and error |
| `BtfLayout.CollectFields` | crates/android-agent/src/btf_layout.rs:14-111 | the whole walk equals the reference walk |
| `BtfLayout.RecordAgrees` | crates/android-agent/src/btf_layout.rs:64-111 | on a record the general reader accepts, both decoders move to the same next record with the same fields |
| `BtfLayout.DecodersAgree` | crates/android-agent/src/btf_layout.rs:64-111 | on every blob the general reader accepts, the walk visits the same record starts and collects exactly what the decoded types say |
| `BtfLayout.WalkFailsOnlyOnMemberNames` | crates/android-agent/src/btf_layout.rs:76-107 | on such a blob the walk fails if and only if a member name of one of the seven structures is unreadable |
| `OpaqueKey.XorShiftInvolution` | crates/android-agent/src/main.rs:2908-2915 | xor with a shift by 33 is its own inverse on 64-bit words |
| `OpaqueKey.MixInverses` | crates/android-agent/src/main.rs:2908-2915 | both wrapping multiplications have two-sided inverses |
| `OpaqueKey.RevealOpaque` | crates/android-agent/src/main.rs:2908-2915 | for every salt the mixing has a left inverse |
| `OpaqueKey.OpaqueReveal` | crates/android-agent/src/main.rs:2908-2915 | and a right inverse, so it is a bijection |
| `OpaqueKey.PendingAreOpen` | crates/android-agent/src/main.rs:670-685 | the pending map holds exactly the issues not yet completed or replaced |
| `OpaqueKey.PairsAreLinks` | crates/android-agent/src/main.rs:670-685 | a completion is paired exactly with the latest open issue of its identifier |
| `OpaqueKey.OpaquePairingIsRawPairing` | crates/android-agent/src/main.rs:3109-3111 | pairing on opaque identifiers links exactly the events that pairing on raw ones links |
| `OpaqueKey.LivePairing.Observe` | crates/android-agent/src/main.rs:670-685 | one event of the live pairing, equal to the reference step |
| `Extents.TranslateCovers` | crates/android-agent/src/main.rs:268-310 | a translated sector is the remap's image of exactly one sector of the source, at the same relative offset |
| `Extents.ExtentsSound` | crates/android-agent/src/main.rs:234-310 | in every reachable state each sector of each extent derives by a chain of observed remaps from a raw extent of the same inode and filesystem, and the capacity is kept |
| `Extents.ExtentsExact` | crates/android-agent/src/main.rs:234-310 | as long as nothing was dropped the extents claim exactly the derivable sectors |
| `Extents.OriginsMatch` | crates/android-agent/src/main.rs:326-388 | every origin returned is that of a matching extent |
| `Extents.MatchesReported` | crates/android-agent/src/main.rs:326-388 | every matching extent's file is returned |
| `Extents.OriginsDistinct` | crates/android-agent/src/main.rs:326-388 | no file is returned twice |
| `Extents.MatchMeansOverlap` | crates/android-agent/src/main.rs:326-388 | a match shares a sector with the issue if and only if the issue is not empty |
| `Extents.EmptyIssueMatches` | crates/android-agent/src/main.rs:326-388 | a concrete empty issue that matches without sharing a sector |
| `Extents.OriginsSound` | crates/android-agent/src/main.rs:326-388 | every origin returned for a non-empty issue owns, by the observed events, a sector of it |
| `Extents.Attributor.ObserveRawExtent` | crates/android-agent/src/main.rs:234-266 | pruning, refresh of an equal range or push with eviction, as the reference step |
| `Extents.Attributor.ObserveBioRemap` | crates/android-agent/src/main.rs:268-310 | all overlapping extents are translated from the state before the remap, as the reference step |
| `Extents.Attributor.OriginsForIssue` | crates/android-agent/src/main.rs:326-388 | the loop with its seen-set returns the reference origins and leaves the pruned state |
| `OriginLink.ActiveMeans` | crates/android-ebpf/src/main.rs:238-309 | a thread's entry is exactly the last stored capture of that thread with no clear since |
| `OriginLink.BoundMeans` | crates/android-ebpf/src/main.rs:365-384 | a bio's entry is exactly the stamp of its last submission, if nothing consumed it |
| `OriginLink.ReportHasOrigin` | crates/android-ebpf/src/main.rs:386-441 | every report carries the capture in force for the thread that last submitted the bio, and no earlier link used that stamp |
| `OriginLink.StampIsReported` | crates/android-ebpf/src/main.rs:386-441 | conversely a stamped bio joining a request with room is reported with its origin unless a map or the ring fails |
| `OriginLink.ReportedOnce` | crates/android-ebpf/src/main.rs:386-441 | between two reports of a bio it was submitted again |
| `OriginLink.CountMeans` | crates/android-ebpf/src/main.rs:393-415 | the count of a request tells exactly how many origins were tried since the request was started or completed, up to nine |
| `OriginLink.OverflowShows` | crates/android-ebpf/src/main.rs:402-441 | at most eight unmarked reports and one marked per request lifetime; the mark is made exactly when a ninth origin was tried, unless the count map refused one; nothing is missing if nothing was refused or lost |
| `OriginLink.LossesCounted` | crates/android-ebpf/src/main.rs:1224-1244 | after every run a CPU's failure counter holds exactly the reports lost there, and other failures noted there, since that CPU last took a note of another generation |
| `OriginLink.LossForgotten` | crates/android-ebpf/src/main.rs:1234-1244 | a concrete run after which a lost report is in no counter of any generation |
| `OriginLink.BioLinks.BindBio` | crates/android-ebpf/src/main.rs:365-384 | a submission always drops the old stamp, whether or not a new one is made |
| `OriginLink.BioLinks.LinkBio` | crates/android-ebpf/src/main.rs:386-441 | the step of a link, what it reports and the note it takes on its CPU, for every failure |
| `BlockRequests.RecordMeans` | crates/android-ebpf/src/main.rs:1050-1120 | the map of pending requests holds exactly the records of the last storing event of each request that nothing touched since |
| `BlockRequests.CountedHasIssue` | crates/android-ebpf/src/main.rs:1114-1144 | every counted completion consumes an issue that passed the filter and was stored, and takes its bytes and device latency from it |
| `BlockRequests.CountedOnce` | crates/android-ebpf/src/main.rs:1114-1144 | no issue is counted twice |
| `BlockRequests.QueuedIdentity` | crates/android-ebpf/src/main.rs:1004-1017 | with exact correlation an issue is charged to whoever queued the request, whichever thread dispatches it |
| `BlockRequests.LateReportIsExact` | crates/android-ebpf/src/main.rs:1169-1222 | in balanced mode the issue reported late from the record is the report that would have been made at the time, with status zero |
| `BlockRequests.LatencySplitIff` | crates/android-ebpf/src/main.rs:1125-1135 | total latency is queue plus device if and only if the insert is unseen, not after the issue, or the device latency is zero |
| `BlockRequests.LatencyDoesNotSplit` | crates/android-ebpf/src/main.rs:1125-1135 | a run of three events, the insert stamped after the issue, in which it is not |
| `BlockRequests.LatencySplits` | crates/android-ebpf/src/main.rs:1125-1144 | under a positive nondecreasing clock it is so for every counted completion of every run |
| `BlockRequests.CountersBalanced` | crates/android-ebpf/src/main.rs:1136-1184 | after every run and on every CPU: observed = detailed + suppressed = sum of each of the four histograms, forced <= failed <= observed, sampled <= detailed |
| `BlockRequests.SnapshotBalanced` | crates/android-agent/src/main.rs:1844-1911 | the merged snapshot of any generation has the same balance |
| `BlockRequests.RunCounters` | crates/android-agent/src/main.rs:1851-1911 | after every run the snapshot's counters are those of exactly the notes taken under its generation and not discarded by a later note of another generation on the same CPU |
| `BlockRequests.RunBuckets` | crates/android-agent/src/main.rs:1898-1910 | so is every bucket of its histograms |
| `BlockRequests.MergedUpdate` | crates/android-ebpf/src/main.rs:1234-1244 | a note taken on one CPU is one note in the merged counters, whether or not that CPU had to reset first |
| `BlockRequests.IssuesConserved` | crates/android-ebpf/src/main.rs:1079-1144 | from the moment a generation becomes active, whatever came before: requests then in flight + issues passed = completions observed + requests in flight now + issues lost in named ways |
| `BlockRequests.BlockProbes.TakeNote` | crates/android-ebpf/src/main.rs:1234-1294 | counters of another generation are discarded before the update |
| `BlockRequests.BlockProbes.Submit` | crates/android-ebpf/src/main.rs:1224-1232 | reports go in up to the first refused reservation, which is counted |
| `BlockRequests.BlockProbes.ProcessInsert` | crates/android-ebpf/src/main.rs:1051-1078 | the insert step, its counters and its reports |
| `BlockRequests.BlockProbes.ProcessIssue` | crates/android-ebpf/src/main.rs:1079-1113 | the issue step, its counters and its reports |
| `BlockRequests.BlockProbes.ProcessComplete` | crates/android-ebpf/src/main.rs:1114-1185 | the completion step, its counters and its reports |
| `BlockRequests.BlockProbes.ProcessBlock` | crates/android-ebpf/src/main.rs:992-1189 | every block probe is the step its kind says |
| `RawCompletion.CompletionState.Advance` | crates/ebpf-types/src/raw_completion.rs:19-28 | excess changes nothing and is refused; otherwise bytes are deducted, the first error sticks, and true means all bytes are in |
| `RawCompletion.ErrnoKeepsFailure` | crates/android-ebpf/src/main.rs:876-899 | the status mapping keeps success and failure apart for all 256 values |
| `RawCompletion.TableMeans` | crates/android-ebpf/src/main.rs:869-918 | the table holds exactly the issued unfinished requests, with the bytes owed and the first error among the accepted parts |
| `RawCompletion.DeliveredIff` | crates/android-ebpf/src/main.rs:869-918 | a completion is delivered if and only if the parts accepted since the open issue make up its bytes, with the first nonzero error as status, under any interleaving of requests |
| `RawCompletion.DeliveredOnce` | crates/android-ebpf/src/main.rs:900-918 | one issue is delivered at most once |
| `RawCompletion.StatusMeans` | crates/ebpf-types/src/raw_completion.rs:19-28 | the delivered status is a failure exactly when some accepted part failed |
| `RawCompletion.RawTable.RawComplete` | crates/android-ebpf/src/main.rs:873-918 | one partial completion: table and delivery as the reference step |
| `Aggregates.BucketsAgree` | crates/android-ebpf/src/main.rs:1330-1341 | for every 64-bit value the kernel's bucket is the number of boundaries, as the agent publishes them, below the value |
| `Aggregates.AboveBoundary` | crates/android-agent/src/main.rs:1954-1958 | a value exceeds a boundary exactly when its bucket does |
| `Aggregates.BucketMeans` | crates/android-ebpf/src/main.rs:1299-1325 | each bucket counts the completions whose value falls in it |
| `Aggregates.CompletionBalanced` | crates/android-ebpf/src/main.rs:1288-1325 | a completion with its verdict keeps the balance across a generation reset |
| `Aggregates.CpuIsLog` | crates/android-ebpf/src/main.rs:1234-1244 | after every sequence of notes a CPU's counters are the summary of the notes it took since it last took one of another generation |
| `Aggregates.MergedBalanced` | crates/android-agent/src/main.rs:1851-1911 | merging keeps the balance |
| `Aggregates.AddBuckets` | crates/android-agent/src/main.rs:1898-1910 | the bucket loop adds pointwise |
| `Aggregates.ReadSnapshot` | crates/android-agent/src/main.rs:1844-1911 | the loop over CPUs computes the sum over those of the generation |
| `Syscalls.PendingMeans` | crates/android-ebpf/src/main.rs:1343-1394 | a call is pending exactly when its stored entry is the thread's last delivered event |
| `Syscalls.ReportedIff` | crates/android-ebpf/src/main.rs:1476-1552 | under any loss of events, a file operation is reported if and only if a wanted exit directly follows, among its thread's events, the stored entry of the same call number, and it carries that entry's data |
| `Syscalls.EntryUsedOnce` | crates/android-ebpf/src/main.rs:1476-1486 | no entry is used twice |
| `Syscalls.FileProbes.SysEnter` | crates/android-ebpf/src/main.rs:1343-1394 | every entry drops the pending call, also one that is filtered out |
| `Syscalls.FileProbes.SysExit` | crates/android-ebpf/src/main.rs:1476-1552 | every exit drops the pending call, and reports as the reference says |
| `StagePairing.RefinesCounters` | crates/android-agent/src/main.rs:2231-2290 | pending and ambiguous are exactly the keys with one, and with several, Begins since their last End or expiry, with the time of the last |
| `StagePairing.HealthMeans` | crates/android-agent/src/main.rs:2226-2272 | per probe name, paired counts the Ends with exactly one Begin open, and unpaired the reused Begins and all other Ends |
| `StagePairing.BeginsConserved` | crates/android-agent/src/main.rs:2231-2290 | Begins = the paired counters of all probe names + pending + ambiguous + ambiguous Ends + expired + reused after every run |
| `StagePairing.Retain` | crates/android-agent/src/main.rs:2277-2290 | keeps exactly the entries younger than the limit and counts the rest |
| `StagePairing.StageHealth.Update` | crates/android-agent/src/main.rs:2195-2305 | one event: maps, counters and health as the reference step |
| `StagePairing.StageHealth.PairEvent` | crates/android-agent/src/main.rs:2232-2274 | the Begin and End cases before expiry |
| `HeavyHitters.BoundedTop.Observe` | crates/android-agent/src/main.rs:431-498 | one observation: credit, insert, or replace one of the smallest entries, whichever the hash order picks |
| `HeavyHitters.FloorRun` | crates/android-agent/src/main.rs:431-498 | once the table is full, every lower bound of its cumulative latencies holds for the rest of the run |
| `HeavyHitters.HeavyHittersKept` | crates/android-agent/src/main.rs:431-498 | every key that ever had one observation above the final minimum is in the final table with at least that maximum |
| `HeavyHitters.RetainedBounded` | crates/android-agent/src/main.rs:431-498 | retained latencies never exceed what was observed, and the total is exact up to saturation |
| `HeavyHitters.ExactWithoutEvictions` | crates/android-agent/src/main.rs:431-498 | with no evictions the table holds exactly the observed keys with exact totals |
| `FlightRecorder.AlwaysHolds` | crates/android-agent/src/main.rs:535-561 | for any timestamps: a suffix of the accepted records within the byte cap, the newest among them, and retained + evicted = observed |
| `FlightRecorder.HoldsLongest` | crates/android-agent/src/main.rs:535-561 | with nondecreasing timestamps, exactly the longest suffix of accepted records that fits cap and window |
| `FlightRecorder.BackwardsLongest` | crates/android-agent/src/main.rs:535-561 | the same with nonincreasing timestamps |
| `FlightRecorder.WindowExactIff` | crates/android-agent/src/main.rs:535-561 | it is so after every record and for every cap and window if and only if the timestamps never decrease or never increase |
| `FlightRecorder.DipInexact` | crates/android-agent/src/main.rs:547-560 | wherever timestamps first fall and then rise, limits under which a record outside the window is kept |
| `FlightRecorder.PeakInexact` | crates/android-agent/src/main.rs:547-560 | wherever they first rise and then fall, limits under which a record that fits was dropped |
| `FlightRecorder.StaleKept` | crates/android-agent/src/main.rs:547-560 | a concrete backward step of the clock after which a record outside the window is retained |
| `FlightRecorder.Recorder.Observe` | crates/android-agent/src/main.rs:535-561 | the loop drops exactly what the reference trim drops, and the byte count stays exact |
| `AddressSweep.EdgeLawKept` | crates/desktop/src/graph_summary.rs:269-296 | the difference map of a device sums, up to any sector, to the number of requests containing it, after each observation |
| `AddressSweep.SweepDevice` | crates/desktop/src/graph_summary.rs:299-330 | the sweep of one device emits its maximal rows with the reference counts |
| `AddressSweep.RowsUnique` | crates/desktop/src/graph_summary.rs:297-330 | there is only one sorted, disjoint, maximal list of rows with the reference counts |
| `AddressSweep.OrderIndependent` | crates/desktop/src/graph_summary.rs:269-330 | the rows do not depend on the order of observation |
| `AddressSweep.AreaIsLength` | crates/desktop/src/graph_summary.rs:297-330 | the reference counts summed over all devices and sectors are the total request length |
| `AddressSweep.AddressAccumulator.Observe` | crates/desktop/src/graph_summary.rs:269-296 | each addressed request adds its two edges; the law of every device is kept |
| `AddressSweep.AddressAccumulator.Finish` | crates/desktop/src/graph_summary.rs:297-330 | rows are sorted, disjoint, maximal and pointwise equal to counting the requests containing each sector, and their weight is the total request length |
| `FileEvidence.MergeShape` | crates/desktop/src/file_evidence.rs:63-73 | merged windows are ordered and separated |
| `FileEvidence.MergeOverlap` | crates/desktop/src/file_evidence.rs:63-105 | merging the windows of requests changes no answer about a record that ends at most one tick before it starts or lies within the margin of either end of time |
| `FileEvidence.IndexExactIff` | crates/desktop/src/file_evidence.rs:39-108 | the index answers about a file record as the naive scan does, for all requests, if and only if the record names no file or is one of those |
| `FileEvidence.StraddlingDiffers` | crates/desktop/src/file_evidence.rs:39-108 | for every other record, two requests under which it is selected although no request is related to it |
| `FileEvidence.BuildLookup` | crates/desktop/src/file_evidence.rs:58-82 | the index holds exactly one merged entry per identity, under its device and inode |
| `FileEvidence.Search` | crates/desktop/src/file_evidence.rs:100-105 | one binary search answers for all windows of an entry |
| `FileEvidence.HitIsByOrigin` | crates/desktop/src/file_evidence.rs:89-108 | an index hit is exactly a request origin of compatible identity whose window overlaps the record |
| `FileEvidence.RelatedFilePositions` | crates/desktop/src/file_evidence.rs:35-112 | the positions are ascending, are those an index of the requests selects, and, but for the records merging affects, exactly those the naive scan selects |
| `ActivitySeries.KeptReduces` | crates/desktop/src/activity_series.rs:21-36 | of each chunk the kept points are in order and include its ends, its lowest and its highest |
| `ActivitySeries.CoarseReduces` | crates/desktop/src/activity_series.rs:17-38 | a coarser level is an ordered subsequence with the same first, last, lowest and highest |
| `ActivitySeries.PyramidReduces` | crates/desktop/src/activity_series.rs:15-41 | so is every level, of the original points |
| `ActivitySeries.PyramidSmall` | crates/desktop/src/activity_series.rs:15-41 | all levels together hold fewer than twice the points (none for none) |
| `ActivitySeries.Build` | crates/desktop/src/activity_series.rs:9-41 | the loop terminates with a coarsest level of at most 256 points |
| `ActivitySeries.WindowShows` | crates/desktop/src/activity_series.rs:50-57 | a window of a sorted level holds every point between the edges and at most one neighbour on each side |
| `ActivitySeries.PyramidShows` | crates/desktop/src/activity_series.rs:47-63 | so does the window of any level of a sorted series |
| `ActivitySeries.Visible` | crates/desktop/src/activity_series.rs:47-63 | the window shown is that of the finest level that fits the budget, or else of the coarsest |
| `BoundedLines.SegmentsSplit` | crates/desktop/src/capture.rs:19-63 | the reference segments concatenate to the stream and are lines |
| `BoundedLines.SegmentsUnique` | crates/desktop/src/capture.rs:19-63 | no other split into lines exists |
| `BoundedLines.LineReader.ReadUntil` | crates/desktop/src/capture.rs:23-26 | the bytes up to the newline or the bound, however the buffer is filled |
| `BoundedLines.LineReader.Discard` | crates/desktop/src/capture.rs:31-45 | skips exactly the rest of the line and terminates |
| `BoundedLines.LineReader.Next` | crates/desktop/src/capture.rs:21-62 | one item per line: oversized and non-UTF-8 lines are errors, others their trimmed text, and the next line follows |
| `BoundedLines.LineReader.Drain` | crates/desktop/src/capture.rs:19-63 | for every stream, limit and buffering the items are, one for one and in order, the classified segments of the stream |

## Left out

- Interleavings inside one kernel probe, except for filter reads: two probes racing on the same request or bio are not modelled.
- Overflow of the kernel's saturating counters and of the agent's unbounded-in-practice counts; the totals of `HeavyHitters` and all sector and time arithmetic do saturate.
- RawCompletion.RawTable.RawComplete: assumes that updating the record of a request already in the map succeeds, as BPF hash maps do.
- BlockRequests: the filter's verdict is an input, and a report of another probe that the ring refused is an event of its own; what the verdict is for which request is `FilterSwitch`. Stack identifiers are not carried.
- Decoding of tracepoint arguments, the fallback request identifier and reading kernel memory in the probes.
- HeavyHitters: the sorted and truncated snapshot of the table.
- FlightRecorder: the two read-only queries of the recorder; encoded sizes are inputs.
- ActivitySeries: the vertical bounds of the series, and infinities, NaN and rounding of coordinates.
- BoundedLines: I/O errors of the underlying stream.
- Btf: resolution of named types, fields and callback signatures over the decoded types; `BtfLayout`: the final lookups that turn collected fields into a layout.
- Perfetto import, session files, JSON, adb and process handling, the adaptive controller and all drawing: plumbing or easy claims.
