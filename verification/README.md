# MC-Kube node components: a Dafny model

The repository holds three small agents that run on every node of an MC-Kube cluster. This project models the
stateful kernel of each of them, branch by branch, and proves what they promise over all inputs, faults,
interleavings and runs.

| file | models |
|---|---|
| `CgroupFiles.dfy` | the node actuator's writes to the RT control files of a container and its pod, one file operation at a time, with refused writes and unreadable files |
| `WriteSequences.dfy` | what holds after every single write, however a sequence of writes is cut short |
| `WriteOrder.dfy` | exactly when the actuator's order keeps the container within its pod; retries of failed requests; frames |
| `Bandwidth.dfy` | the same sequences under a kernel that compares bandwidth (runtime over period) |
| `Interleaving.dfy` | any mix of requests in flight at once, interleaved file operation by file operation |
| `Overlap.dfy` | two overlapping requests for one limit, each in either mode, exactly |
| `OverrunDetector.dfy` | the eBPF hook: one edge-triggered automaton per deadline entity in a bounded hash map |
| `EventWire.dfy` | the 48-byte event record, C layout on one side, field-by-field reading on the other |
| `EventAgent.dfy` | path cache, event loop and counters of the user-space agent |
| `LineScanner.dfy` | the agent's chunked line reader |
| `CgroupPaths.dfy` | cgroup paths as the actuator builds them and as the agent takes them apart |
| `OverrunPipeline.dfy` | hook, record, cache and path parsing put together |
| `CpuUsage.dfy` | CPU usage from two readings of `/proc/stat` on 64-bit counters |
| `BusyReporter.dfy` | the ticker loop that publishes the node's busy flag |
| `Text.dfy`, `Wrappers.dfy` | splitting, joining and searching; optional values |

`dafny verify dfyconfig.toml` checks everything.

## Form

Code that changes things step by step is imperative here: `CgroupFs`, `Detector`, `Scanner`, `OsFile` and
`PathCache` are classes, and the ticker loop, the event loop and the mount point search are methods with loops.
Each is proved equal to a specification function of its inputs and its old state (`Perform`, `Hook`, `Log`,
`After`, `LinesFrom`); the theorems are about those functions. `Perform` covers every fault: how many writes go
through before one is refused, and which files cannot be read.

Assumptions about the environment: a write to a control file replaces exactly the value it names (`"k R"` sets
slot k, a range sets all its slots), reads return what was written, and a per-core write outside the existing
slots is refused. A negative runtime means unlimited. Any other write may be refused at any time. A publish is
confirmed, refused, or applied although its client got an error; one that is applied is applied before the next.

## Findings

- The README of the actuator (node-actuator/README.md:35-42) promises that the order of writes never lets the
  container exceed its pod. Without a core, and with a runtime of at least 0, that fails for exactly one kind of
  request: a limited pod's runtime goes up while the period goes down (`PromiseExact`, `RaiseBreaksPromise`). With
  one core whose file can be read, and a runtime of at least 0, it fails exactly when that core's limited runtime
  is raised while the period or the global runtime counts as lower (`CoreOrderExact`, `CoreRaiseBreaksOrder`). A
  negative runtime is written as 0 but ordered as "unlimited" (`NegativeRuntimeExact`, `NegativeBreaksPromise`). A
  core range, or an unreadable per-core file, is taken for an old value of 0 (`BlindEscalationExact`,
  `RangeDecreaseBreaksOrder`).
- A request that lowers limits writes the runtime before the period, so the new runtime can exceed an old period
  for a moment; `LimitOrderExact` says exactly when.
- The same section says that the order keeps the kernel from rejecting writes. Under a bandwidth comparison of
  limited groups without a core, `EnforcedRequestExact` says for every fair pair which requests go through. From
  equal groups that is four families (`SynchronisedFamilies`), and raising runtime and period together from a
  non-zero runtime is not among them. A refused request can leave the groups unequal (`RefusedLowering`); whatever
  was refused before, two requests, the first with runtime 0, reach every target (`ReachableThroughZero`).
- The server takes no lock. Requests that overlap on a limit are safe if they ask for the same value and each met
  its own condition when it read (`InterleavingSafety`); escalations for no core or one index meet theirs whenever
  the per-core file can be read (`EscalationReads`). Two requests for different values can break the order from
  every ordered state, and so can two that raise the limit to the same value with different periods, each of which
  is safe alone (`OverlapExact`, `SameRuntimeCanBreak`).
- isCpuBusy stays at true for as long as samples stay low exactly when a high sample was not confirmed, the last
  confirmed message was not a high one, the flag was true afterwards, and no high sample was confirmed since
  (`StrandedIffHistory`, `StrandedMeansSilent`). A refused publish of a high sample that ends the wait for the clear
  does it (`StrandingHappens`), and so does a single high publish that is applied while its client times out
  (`TimeoutStrands`).
- The error "cgroup2 mountpoint not found" cannot be returned for an open file: the scanner reports end-of-file
  as an error (`FindMountpoint`).
- node-actuator/README.md:89-96 lists cpu.rt_runtime_us among the files written; with a core only the per-core
  file is (`RequestFrame`).

## Model

| member | source | states |
|---|---|---|
| `CgroupFiles.CgroupFs.WriteCgroupFile` | node-actuator/main.go:480-493 | one write: it goes through and replaces one value, or fails and changes nothing |
| `CgroupFiles.CgroupFs.WriteRuntimeFile` | node-actuator/main.go:398-411 | the per-core file with a core, the global file without |
| `CgroupFiles.CgroupFs.WritePeriodIfChanged` | node-actuator/main.go:347-355 | the period is written unless the file can be read and already holds it |
| `CgroupFiles.CgroupFs.WriteRtValues` | node-actuator/main.go:333-396 | one group's writes in the order the flags ask for, up to the first failure, cpuset last |
| `CgroupFiles.CgroupFs.ApplyRuntimeWithOrder` | node-actuator/main.go:434-456 | the two writes of an escalation, up to the first failure |
| `CgroupFiles.CgroupFs.ApplyCgroup` | node-actuator/main.go:202-307 | a whole request: nothing is written unless all preflight checks and reads succeed; otherwise the write sequence chosen from the pod's values is carried out up to the first failure |
| `CgroupFiles.ValidMeansFits` | node-actuator/main.go:180-189 | the handler accepts a request iff its period is positive and the runtime it writes, 0 for "unlimited", lies between 0 and the period |
| `CgroupFiles.PermittedPeriods` | node-actuator/main.go:207-251 | the periods a host permits are none, all positive ones, or all up to the period of kubepods.slice, and when which |
| `CgroupFiles.PerformAppend` | node-actuator/main.go:289-305 | performing two parts of a request in a row stops at the first failure of either |
| `WriteSequences.NeverBrokenIffAlong` | node-actuator/main.go:285-305 | a property survives every pattern of failures exactly when it holds along the uninterrupted sequence |
| `WriteSequences.UnhinderedCompletes` | node-actuator/main.go:373-393 | a sequence with enough accepted writes and readable cpusets completes |
| `WriteSequences.CompletesExact` | node-actuator/main.go:347-393 | a sequence completes iff every cpuset it compares can be read and the writes it needs go through; a period or cpuset that is readable and in place already needs no write, and no more are made |
| `WriteOrder.DecreaseMeansTighter` | node-actuator/main.go:500-515 | the decrease test is exactly "the old limit is not within the new one", with negative as the loosest limit |
| `WriteOrder.DirectionMeans` | node-actuator/main.go:253-287 | in fields, when a request counts as lowering; a core range, an index without a slot and an unreadable per-core file never make it so |
| `WriteOrder.EscalationOrderExact` | node-actuator/main.go:434-456 | for any limits and either order, the container stays within the pod after every write iff the first write already fits the other side |
| `WriteOrder.EscalationAlwaysSafe` | node-actuator/main.go:264-280 | a single escalation for no core or one readable core never lets the container exceed the pod, whatever fails |
| `WriteOrder.BlindEscalationExact` | node-actuator/main.go:412-433 | when the old per-core value is not obtained, an escalation is safe iff the container's slots already fit the new limit |
| `WriteOrder.BlindRequestExact` | node-actuator/main.go:412-433 | in normal mode the same, unless period or global runtime count as lower: then safe iff the new runtime fits the pod's slots |
| `WriteOrder.RangeDecreaseBreaksOrder` | node-actuator/main.go:423-426 | lowering a core range passes through container above pod |
| `WriteOrder.NormalOrderExact` | node-actuator/main.go:253-306 | for every valid normal-mode request and every fault, the limits stay in order and within their periods iff a condition on the values before the request holds |
| `WriteOrder.RequestOrderExact` | node-actuator/main.go:253-306 | the order alone, in either mode, for any core and fault: it holds iff the new limit fits what the first runtime write meets |
| `WriteOrder.PromiseExact` | node-actuator/README.md:35-42 | without a core and with a runtime of at least 0, from any ordered pair: the container never exceeds the pod iff not (limited pod, runtime up, period down) |
| `WriteOrder.RaiseBreaksPromise` | node-actuator/README.md:35-42 | runtime 100 to 200 with period 1000 to 500 passes through container 200, pod 100 |
| `WriteOrder.LimitOrderExact` | node-actuator/main.go:265-306 | without a core and with a runtime of at least 0, order and own periods hold iff not runtime up with period down, and a request that counts as lowering fits both old periods |
| `WriteOrder.NegativeRuntimeExact` | node-actuator/main.go:333-337 | with a negative runtime and any core: order holds iff the period goes down or every container limit that the request writes is already at 0 |
| `WriteOrder.NegativeRuntimeKeptExact` | node-actuator/main.go:333-337 | the same with each runtime within its own period |
| `WriteOrder.NegativeBreaksPromise` | node-actuator/main.go:333-337 | runtime -1 in an unchanged period passes through container 100, pod 0 |
| `WriteOrder.CoreOrderExact` | node-actuator/main.go:259-306 | with one core: safe iff that core's limited runtime is not raised while period or global runtime counts as lower |
| `WriteOrder.CoreRaiseBreaksOrder` | node-actuator/main.go:259-306 | core 0 from 100 to 200 with period 1000 to 500 passes through container 200, pod 100 |
| `WriteOrder.RequestFrame` | node-actuator/main.go:398-411 | no state passed through differs in another core's slot, or in the global runtime when a core is given, or in slots and cpusets when none is |
| `WriteOrder.EscalationFrame` | node-actuator/main.go:434-456 | an escalation never touches a period or a cpuset, and leaves both groups at the new limit |
| `WriteOrder.InPlaceWritesTwice` | node-actuator/main.go:347-393 | a request whose periods and cpusets are in place makes its two runtime writes and no others |
| `WriteOrder.FinalIsApplied` | node-actuator/main.go:333-396 | the completed sequence leaves both groups at the requested period, clamped runtime and cpuset |
| `WriteOrder.RetryConverges` | node-actuator/main.go:253-306 | if every attempt, with what it cannot read, would be safe as the first one, then the order stays safe over any number of attempts cut off anywhere, flags recomputed each time; an attempt that succeeds leaves both groups at the request, and one that nothing hinders succeeds |
| `WriteOrder.RetryExact` | node-actuator/main.go:253-306 | that condition is exact: under a set of read-fault patterns all series of attempts are safe and convergent iff each pattern alone is safe at first |
| `WriteOrder.RetryFromEqualPeriods` | node-actuator/main.go:253-306 | the same from equal periods and a limited pod for every request but runtime up with period down |
| `Bandwidth.NormalBandwidthExact` | node-actuator/main.go:265-306 | without a core, from any fair pair of limited groups: container bandwidth stays within pod bandwidth and runtime within period iff R = 0; or R is below the pod's runtime, P is not below its period, and R fits the container's period and the pod's bandwidth over it; or neither is below the pod's, the container's runtime over P stays within the pod's bandwidth, and R is not below the container's runtime; with R negative iff P goes down or the container is at 0 |
| `Bandwidth.SynchronisedFamilies` | node-actuator/main.go:285-305 | from a pair with equal limits (r0, p0) that is: R = 0, or R < r0 and P >= p0, or R >= r0 and P = p0, or r0 = 0 and P >= p0 |
| `Bandwidth.EscalationBandwidthExact` | node-actuator/main.go:185-189 | an escalation keeps that rule iff the new runtime fits both periods in force and is 0 or finds the container's period no shorter than the pod's; the handler only compares it with the period sent |
| `Bandwidth.EnforcedCompletesIff` | node-actuator/main.go:285-305 | under a kernel that refuses unfair writes, a sequence completes iff all its states are fair |
| `Bandwidth.EnforcedRequestExact` | node-actuator/README.md:35-42 | from any fair pair, which normal-mode requests without a core such a kernel lets through, and that those end with equal groups at the request |
| `Bandwidth.HistorySane` | node-actuator/main.go:285-305 | requests without a core for limited values, refused or cut off anywhere, leave a fair pair |
| `Bandwidth.RefusedLowering` | node-actuator/main.go:341-355 | lowering (500, 1000) to (400, 500) is refused after the container's runtime is written |
| `Bandwidth.ReachableThroughZero` | node-actuator/main.go:285-305 | after any such history every target is reached by two requests, the first with runtime 0 |
| `Interleaving.StepKeepsPair` | node-actuator/main.go:333-396 | each single write of a prepared request, of either mode, keeps every limit of the pair in order and leaves the request prepared for the next |
| `Interleaving.StepKeepsInv` | node-actuator/main.go:131-151 | every arrival, read, write and failure of any request in flight keeps the invariant |
| `Interleaving.InterleavingSafety` | node-actuator/main.go:253-306 | in every interleaving of any normal-mode and runtime-only requests, with any cores, unreadable files and failures: if requests in flight for one limit agree on its value and each met its condition when it had read, no container limit ever exceeds its pod's, and every completed request is in force on both sides unless a later one asked for another value |
| `Interleaving.ReadConditionExact` | node-actuator/main.go:253-306 | the condition cannot be weakened: a request breaks the order on its own iff it does not meet it, even if part of what it read is out of date |
| `Interleaving.EscalationReads` | node-actuator/main.go:264-280 | an escalation for no core or one index always meets it, if the per-core file can be read |
| `Interleaving.CoreRequestReads` | node-actuator/main.go:259-287 | a normal-mode request for one readable core meets it unless it raises that core's limited runtime while its period or global runtime is below the one seen |
| `Interleaving.EscalationSafety` | node-actuator/main.go:264-280 | for such escalations, with readable per-core files, agreement alone is enough in every interleaving |
| `Overlap.OverlapExact` | node-actuator/main.go:193-196 | from every ordered state, for every pod and every limit it has: two requests, each in either mode and with readable files, can leave the container above its pod by overlapping iff they ask for different values, or one does not meet its condition alone, or both are normal-mode raises with different periods |
| `Overlap.EscalationOverlapExact` | node-actuator/main.go:193-196 | for two escalations: iff they ask for different limits |
| `Overlap.NormalOverlapExact` | node-actuator/main.go:285-305 | for two normal-mode requests without a core and with runtimes of at least 0: iff the runtimes differ, or they raise a limited runtime with different periods or one below the pod's |
| `Overlap.SameRuntimeCanBreak` | node-actuator/main.go:285-305 | runtime 100 to 200 once with period 1500 and once with 2000: each is safe alone, together they can break the order |
| `OverrunDetector.Detector.OnUpdateCurrDlSe` | ebpf/hcbs_overrun.bpf.c:47-113 | one call of the hook: its whole effect on the map and on the submitted events |
| `OverrunDetector.HookInFields` | ebpf/hcbs_overrun.bpf.c:50-110 | in fields, for any entity: which calls count, when its entry appears and how its arming changes, and exactly which event is submitted |
| `OverrunDetector.MapFills` | ebpf/hcbs_overrun.bpf.c:37-43 | the map holds all entities seen until there are 8192, then stays at 8192 |
| `OverrunDetector.StateIsHistory` | ebpf/hcbs_overrun.bpf.c:81-110 | an entity is in the map iff fewer than 8192 others were seen before it; it is armed iff every overrun of its own was followed by a replenishment |
| `OverrunDetector.ReportIffHistory` | ebpf/hcbs_overrun.bpf.c:50-110 | after any trace of calls for any entities, a call reports iff it is an overrun of an admitted entity whose earlier overruns were all followed by a replenishment |
| `OverrunDetector.NoInterference` | ebpf/hcbs_overrun.bpf.c:81-110 | an admitted entity is reported exactly as if it were alone, any other never |
| `OverrunDetector.ReportBalance` | ebpf/hcbs_overrun.bpf.c:95-110 | reports minus re-armings is 1 while disarmed and 0 otherwise, lost ring-buffer slots included |
| `OverrunDetector.SubmittedAreReports` | ebpf/hcbs_overrun.bpf.c:96-105 | the submitted events are those of the reporting calls that got a slot, in order |
| `EventWire.NumberOfBytes` | ebpf/main.go:360-364 | little-endian bytes read back as the number they were written from |
| `EventWire.CLayout` | ebpf/hcbs_overrun.bpf.c:14-22 | natural alignment allows exactly one set of member offsets, and the record is 48 bytes |
| `EventWire.WireRoundTrip` | ebpf/main.go:37-46 | any record holding an event in C layout, with any bytes in the padding, decodes to that event, and the eight fields fill the record |
| `EventWire.EncodeDecode` | ebpf/main.go:360-364 | decoding undoes encoding for all field values |
| `EventWire.EncodeLayout` | ebpf/hcbs_overrun.bpf.c:14-22 | which bytes of the record hold which member |
| `EventWire.DecodeReads48` | ebpf/main.go:360-364 | reading fails exactly for records under 48 bytes and ignores what follows them |
| `EventAgent.WalkIsTree` | ebpf/main.go:133-142 | a walk meets exactly the readable directories of the tree, each under the path of the names leading to it |
| `EventAgent.TableIsEntries` | ebpf/main.go:128-144 | with one path per inode, the filled table gives an inode exactly the path it was met under |
| `EventAgent.PathCache.Refresh` | ebpf/main.go:151-162 | a refresh adds every directory of the walk and removes nothing |
| `EventAgent.EventLoop` | ebpf/main.go:349-398 | the loop over any sequence of records and read errors computes the specified counters and reports |
| `EventAgent.CountersConserve` | ebpf/main.go:387-397 | each container's count is the number of its reports; the total is the sum of all counts and the number of all reports |
| `EventAgent.CacheFromHistory` | ebpf/main.go:122-162 | every cached path was the path of its inode in some walked tree |
| `EventAgent.CacheAgreesWithWalk` | ebpf/main.go:368-377 | if no inode changes its path over the history, every existing cgroup resolves to the path a fresh walk gives |
| `EventAgent.LiveCgroupResolves` | ebpf/main.go:368-377 | if no inode changes its path over the history, a directory that exists when its event is handled resolves to its own path in the tree |
| `EventAgent.CachedForGood` | ebpf/main.go:151-162 | with stable names, a cached path is never lost or changed, whatever is deleted later |
| `EventAgent.MissCachesTree` | ebpf/main.go:369-373 | with stable names, a lookup miss leaves every directory of the tree resolvable for the rest of the run |
| `EventAgent.UnreadableIgnored` | ebpf/main.go:351-364 | a read error or a short record changes nothing |
| `EventAgent.CacheIsMet` | ebpf/main.go:122-162 | with stable names the cache holds exactly what the walks met: the first one and one for each record that missed |
| `EventAgent.PostedIffMet` | ebpf/main.go:366-397 | with stable names a well-formed record is posted and counted for a container iff some walk so far, its own included, met its cgroup under a path that names this container, and else leaves posts and counters alone |
| `EventAgent.OnceMetAlwaysPosted` | ebpf/main.go:366-397 | so the events of a container that is gone when they are handled are still charged to it |
| `EventAgent.UnknownNotCharged` | ebpf/main.go:369-377 | an id that no tree contained changes no counter |
| `LineScanner.Scanner.Scan` | ebpf/main.go:88-118 | for any sizes of the reads, one call returns the next line and moves the offset exactly past it; at the end of what can be read it returns the last line if there is one and the file is not closed, else false with the file's error; a failed seek keeps the line and is the error |
| `LineScanner.FindMountpoint` | ebpf/main.go:48-76 | the first matching line of the file in order, or the error that ended the file after all its lines; no error only for a closed file |
| `LineScanner.LinesReassemble` | ebpf/main.go:78-120 | the lines, each terminated, make up the text, a newline added only where the last line had none; of a closed file an unterminated last line is lost |
| `LineScanner.LinesAreFree` | ebpf/main.go:78-120 | no line holds a newline |
| `LineScanner.TerminatedInjective` | ebpf/main.go:78-120 | no other newline-free lines make up that text |
| `CgroupPaths.LastIndex` | node-actuator/main.go:544-547 | the last occurrence, or none |
| `CgroupPaths.JoinAbsolute` | node-actuator/main.go:551-553 | joining plain components to an absolute path appends them |
| `CgroupPaths.ResolveLaws` | node-actuator/main.go:551-553 | what empty, ".", ".." and plain components do to a cleaned path |
| `CgroupPaths.PathsExist` | node-actuator/main.go:535-547 | a cgroupsPath gives paths iff it has exactly three parts and a pod segment behind the start of the first |
| `CgroupPaths.PathsShape` | node-actuator/main.go:535-554 | the pod's directory lies in its QoS slice, the container's directly in the pod's |
| `CgroupPaths.ExtractExact` | ebpf/main.go:173 | the agent finds the leftmost 64 lower-case hexadecimal digits behind one of the three markers, and none if there are none |
| `CgroupPaths.MonitorHasNoId` | ebpf/main.go:173 | a crio-conmon scope shows no id |
| `CgroupPaths.FirstIdInScope` | ebpf/main.go:173 | in a path whose last part is the scope of a containerd, docker or crio container the leftmost id is the pod path's own, if it has one, and else the container's |
| `CgroupPaths.IdRoundTrip` | ebpf/main.go:193-198 | for a containerd, docker or crio container, the agent recovers exactly the id the actuator built the path from iff the pod's path shows no other id |
| `OverrunPipeline.OverrunReachesController` | ebpf/main.go:349-398 | an overrun that the history calls for and that finds a free slot ends as exactly one report with its container's id and its own timestamp, if its cgroup is the container's directory when it is handled or was when an earlier walk met it, names are stable, and the pod's path shows no id |
| `OverrunPipeline.OverrunsReachController` | ebpf/main.go:349-398 | over whole runs: with the submitted events handled in order under those conditions, read errors in between, the reports are exactly those of the overruns the trace calls for that found a slot, in order, and the counters count exactly them |
| `CpuUsage.SampleIsWrappedSum` | cpu_util_sender/main.go:67-94 | the sample is the sum of the idle columns, and of these and the busy ones, modulo 2^64 |
| `CpuUsage.ColumnsMean` | cpu_util_sender/main.go:67-94 | which columns are idle and which busy; missing ones count 0, later ones are ignored |
| `CpuUsage.ComputeUsage` | cpu_util_sender/main.go:97-111 | a percentage between 0 and 100 for every pair of samples, wrapped around or not |
| `CpuUsage.UsageIsNearestPercent` | cpu_util_sender/main.go:97-111 | the share of busy time rounded to the nearest percent, halves up; 0 when idle grew by more than the total, and when the total did not grow |
| `CpuUsage.Over90Exact` | cpu_util_sender/main.go:331 | for any two samples, wrapped counters and a falling idle included: usage is over 90 iff the total grew and at least 90.5% of its 64-bit growth was not idle |
| `CpuUsage.Over90OfColumns` | cpu_util_sender/main.go:97-111 | the same in terms of columns that only grew and did not overflow |
| `BusyReporter.ReportLoop` | cpu_util_sender/main.go:308-371 | the loop publishes exactly what the tick function asks for, for all readings, clocks and publish failures |
| `BusyReporter.LogIsSent` | cpu_util_sender/main.go:322-370 | entry i of the log is the attempt of tick i in the state the earlier ticks left |
| `BusyReporter.PublishExact` | cpu_util_sender/main.go:331-369 | what any tick after any run tries to publish, without the loop's variables: a high sample unless the last confirmed publish carried the same usage at most 5 s ago, the first low sample after a confirmed high one with the flag still true, and the clear 5 s after a quiet drop |
| `BusyReporter.LastSampleExact` | cpu_util_sender/main.go:324-329 | usage is taken against the last earlier reading that succeeded |
| `BusyReporter.LogExact` | cpu_util_sender/main.go:322-370 | entry i of the log in these terms, from the readings |
| `BusyReporter.WaitingIffQuiet` | cpu_util_sender/main.go:350-369 | the loop waits to clear the flag iff a confirmed drop was followed by nothing but quiet, and remembers that drop's time |
| `BusyReporter.ClearedExactlyAfterQuiet` | cpu_util_sender/main.go:361-368 | isCpuBusy=false is sent iff the sample is low and a confirmed drop lies at least 5 s back with no high sample and no confirmed clear since |
| `BusyReporter.PendingMeansBusy` | cpu_util_sender/main.go:339-370 | while a drop is still to come the flag out there is true; while a clear is still to come it is true iff no clear was applied behind a client error since the drop |
| `BusyReporter.StrandedIffHistory` | cpu_util_sender/main.go:340-349 | after any run the flag is stranded iff some high sample was not confirmed, the last confirmed message before it was not a high one, the flag was true after it, and no later high sample was confirmed |
| `BusyReporter.StrandedMeansSilent` | cpu_util_sender/main.go:350-369 | stranded means: the flag is true, and no run of samples that are not high is ever followed by a publish |
| `BusyReporter.StrandedForGood` | cpu_util_sender/main.go:350-369 | once stranded, nothing is ever sent while samples stay low |
| `BusyReporter.StrandingHappens` | cpu_util_sender/main.go:340-349 | a run that strands the flag by a refused publish alone |
| `BusyReporter.TimeoutStrands` | cpu_util_sender/main.go:340-349 | a single high publish that is applied but not confirmed strands the flag |
| `BusyReporter.BoundedResponse` | cpu_util_sender/main.go:350-369 | after a confirmed high, the drop is sent at the first low sample; then the clear at every low sample at least 5 s after it until one is confirmed, and nothing else |
| `BusyReporter.DurationIsTrailingBlock` | cpu_util_sender/main.go:331-335 | the duration is the number of samples since the last low one |
| `BusyReporter.TickerSpacing` | cpu_util_sender/main.go:320-322 | a ticker that buffers one tick lets at most one tick come early between any two |
| `BusyReporter.StalenessBound` | cpu_util_sender/main.go:340-349 | served by such a ticker, with every publish confirmed within L seconds, after each high sample the published usage is that sample and the published duration lags by 0 to 6 + L, or 5 + L if no tick waited in the channel |

## Left out

- HTTP handlers, JSON, the token check, the renice endpoint, and the crictl, jq and kubectl processes: plumbing. Only the numeric validation of a request is kept, as `Request.Valid`.
- The real kernel: acceptance of cpusets and throttling are not modelled; the bandwidth rule is an assumption of `Bandwidth.dfy`, which is about limited groups and requests without a core.
- Core text: one index and one range are values (`Index`, `Span`), so spellings such as "03" or "0,2" do not occur.
- WriteOrder.CoreOrderExact: about one readable core and a runtime of at least 0; ranges, unreadable files and negative runtimes are in `NormalOrderExact` and `RequestOrderExact`, whose condition is less plain.
- Interleaving: of overlapping requests the order and the final values of the limits are promised; which period and cpuset win, and whether a runtime fits its own period meanwhile, are not.
- Overlap.OverlapExact: about no core or one index with readable files; for core ranges and unreadable files `InterleavingSafety` and `ReadConditionExact` give the safe side and each request's own condition.
- Pods with several RT containers: the two-sided order says nothing about siblings.
- Floating point: `ComputeUsage` works on real numbers; float64 rounding is not modelled.
- int64 overflow of the seconds counter and of the agent's counters.
- The detector on several CPUs at once for one entity, and insertion failures of the hash map for reasons other than its capacity.
- LineScanner: the parsing of one mountinfo line is a parameter of `FindMountpoint`, which promises only the error for a file that cannot seek.
- EventAgent: each walk sees one tree; changes during a walk, the extraction of pod UIDs, the POST itself and the statistics file are not modelled.
- cpu_util_sender/legacy, the C loader, scripts and manifests.
