# system-metrics in Dafny

A Dafny model of the core of `cboxdk/system-metrics`, a PHP library that
reads Linux and macOS system metrics: CPU ticks, load averages, memory,
storage, network, uptime and processes. Each reading becomes a typed,
immutable snapshot. The model covers four layers:

- **Snapshot records and their derived values** (`cpu.dfy`, `load_average.dfy`,
  `memory.dfy`, `storage.dfy`, `network.dfy`, `uptime.dfy`, `process.dfy`):
  - tick totals and busy time;
  - guarded percentages, with a zero total giving 0;
  - the busiest and idlest core, where the earliest core wins a tie;
  - longest-prefix mount lookup;
  - the interface-type and filesystem-type classifiers;
  - the uptime breakdown and its human-readable text.
- **Text parsers** for the output of:
  - `/proc/net/dev`, `/proc/uptime`, `/proc/loadavg` and `/proc/<pid>/stat`;
  - `df -k`, `df -i` and `df -ki`;
  - `netstat -ib` and `netstat -an`;
  - `iostat`;
  - `sysctl kern.boottime` and `sysctl vm.loadavg`.

  Each parser is a specification function `Parsed`. Where the PHP loops,
  a `method Parse` is proved equal to it. Each parser has lemmas for its
  error messages and for the shape of what it reads, and most have a
  round-trip lemma: output written from known values is read back as
  those values. `php_text.dfy` holds the PHP string primitives the parsers
  rely on: `trim`, `explode`, `preg_split('/\s+/')`, `strrpos`, `substr`,
  `strtolower` and the `(int)`/`(float)` casts.
- **Acquisition sources** that run commands or read files:
  - the /proc network and storage sources;
  - the macOS `df` storage source and the `vm_stat` memory source;
  - the /proc process source, which builds a parent-to-children map in one
    scan and walks it in pre-order;
  - the ordered fallback chains for CPU and storage, which aggregate their
    error messages.

  The command runner and file reader are classes that record every
  command run and every path read. So each source's method is proved
  against a function of the outcomes, together with the exact sequence of
  commands or paths it touches.
- **Platform routers** (`composite_*.dfy`). Some choose their source once,
  at construction (CPU, load average, environment detection). Others test
  the OS family on every call (storage, network, uptime, container). Each
  source's own read outcome is a parameter. The lemmas state which source
  each platform reads, and the error every unsupported platform gets.

## Model

| member | source | states |
|---|---|---|
| Cpu.CpuTimes.Total | src/DTO/Metrics/Cpu/CpuTimes.php:26-49 | every tick is busy (user, nice, system, irq, softirq, steal), idle or iowait: total is busy plus idle plus iowait |
| Cpu.BusyWithinTotal | src/DTO/Metrics/Cpu/CpuTimes.php:26-49 | with non-negative counters, 0 <= busy <= total; no idle or iowait ticks makes busy equal total; a zero total has no busy ticks |
| Cpu.ZeroTimes | src/DTO/Metrics/Cpu/CpuTimes.php:26-49 | all-zero counters give total 0 and busy 0 |
| Cpu.BusyPercentage | src/DTO/Metrics/Cpu/CpuSnapshot.php:131-139 | a core with no ticks is 0% busy; otherwise the result is busy/total*100 |
| Cpu.CpuSnapshot.FindCore | src/DTO/Metrics/Cpu/CpuSnapshot.php:31-40 | None exactly when no core has the index; otherwise the first core carrying that index |
| Cpu.CpuSnapshot.FindBusyCores | src/DTO/Metrics/Cpu/CpuSnapshot.php:47-60 | exactly the cores with a non-zero total whose busy share reaches the threshold; a zero-total core is never listed |
| Cpu.CpuSnapshot.FindIdleCores | src/DTO/Metrics/Cpu/CpuSnapshot.php:67-80 | exactly the cores with a non-zero total whose idle share (iowait not counted) reaches the threshold |
| Cpu.CpuSnapshot.BusiestCore | src/DTO/Metrics/Cpu/CpuSnapshot.php:85-103 | None exactly when there are no cores; otherwise the first core of maximal busy percentage |
| Cpu.CpuSnapshot.IdlestCore | src/DTO/Metrics/Cpu/CpuSnapshot.php:108-126 | None exactly when there are no cores; otherwise the first core of minimal busy percentage |
| Cpu.FindBusyCoresAppend | src/DTO/Metrics/Cpu/CpuSnapshot.php:47-60 | the filter keeps list order: the busy cores of a + b are those of a followed by those of b |
| Cpu.FindIdleCoresInOrder | src/DTO/Metrics/Cpu/CpuSnapshot.php:67-80 | the idle cores of a + b are those of a followed by those of b, and one core is kept exactly when it is idle, so order and repeats survive |
| Cpu.BusiestIsEarliestOnTie | src/DTO/Metrics/Cpu/CpuSnapshot.php:85-103 | the strict comparison makes the earliest of equally busy cores win |
| Cpu.CpuCoreDelta.UsagePercentage | src/DTO/Metrics/Cpu/CpuCoreDelta.php:28-36 | 0 for a zero-tick delta; otherwise busy/total*100 |
| Cpu.CpuCoreDelta.IdlePercentage | src/DTO/Metrics/Cpu/CpuCoreDelta.php:43-51 | 0 for a zero-tick delta; otherwise idle/total*100 |
| Cpu.CpuCoreDelta.UserPercentage | src/DTO/Metrics/Cpu/CpuCoreDelta.php:56-64 | 0 for a zero-tick delta; otherwise user/total*100 |
| Cpu.CpuCoreDelta.SystemPercentage | src/DTO/Metrics/Cpu/CpuCoreDelta.php:69-77 | 0 for a zero-tick delta; otherwise system/total*100 |
| Cpu.CoreDeltaBounds | src/DTO/Metrics/Cpu/CpuCoreDelta.php:28-77 | with non-negative deltas, each of the four percentages lies in [0, 100] |
| Cpu.CoreUsagePlusIdle | src/DTO/Metrics/Cpu/CpuCoreDelta.php:28-51 | usage plus idle is at most 100, and exactly 100 when there is no iowait |
| Cpu.CoreUserSystemWithinUsage | src/DTO/Metrics/Cpu/CpuCoreDelta.php:56-77 | user plus system never exceeds usage |
| Cpu.CpuDelta.Share | src/DTO/Metrics/Cpu/CpuDelta.php:45-152 | every aggregate percentage is 0 when the duration or the tick total is 0; otherwise it is part/total*100 |
| Cpu.CpuDelta.NormalizedUsagePercentage | src/DTO/Metrics/Cpu/CpuDelta.php:69-76 | usage divided by the number of core deltas; 0 when there are none |
| Cpu.CpuDelta.CoreUsagePercentage | src/DTO/Metrics/Cpu/CpuDelta.php:159-168 | None exactly when no core delta has the index; otherwise the usage of the first that does |
| Cpu.CpuDelta.BusiestCore | src/DTO/Metrics/Cpu/CpuDelta.php:175-193 | None exactly when there are no core deltas; otherwise the first of maximal usage |
| Cpu.CpuDelta.IdlestCore | src/DTO/Metrics/Cpu/CpuDelta.php:200-218 | None exactly when there are no core deltas; otherwise the first of minimal usage |
| Cpu.DeltaSharesSumTo100 | src/DTO/Metrics/Cpu/CpuDelta.php:45-152 | with a duration and ticks, usage, idle and iowait add up to exactly 100 |
| Cpu.DeltaUsageBounds | src/DTO/Metrics/Cpu/CpuDelta.php:37-59 | with non-negative deltas, usage lies in [0, 100] and user plus system lies within usage |
| LoadAverage.NormalizedLoadAverage.OneMinutePercentage | src/DTO/Metrics/NormalizedLoadAverage.php:34-37 | the value times 100; 1.0 maps to exactly 100, above 1.0 maps above 100 |
| LoadAverage.NormalizedLoadAverage.FiveMinutesPercentage | src/DTO/Metrics/NormalizedLoadAverage.php:44-47 | the same for the five-minute value |
| LoadAverage.NormalizedLoadAverage.FifteenMinutesPercentage | src/DTO/Metrics/NormalizedLoadAverage.php:54-57 | the same for the fifteen-minute value |
| LoadAverage.LoadAverageSnapshot.Normalized | src/DTO/Metrics/LoadAverageSnapshot.php:38-58 | records the core count; no cores gives three zeros; otherwise each window is load / cores |
| LoadAverage.NormalizedDependsOnlyOnCoreCount | src/DTO/Metrics/LoadAverageSnapshot.php:38-58 | two CPU snapshots with as many cores normalize a load alike, whatever their ticks |
| LoadAverage.NormalizedFullCapacity | src/DTO/Metrics/LoadAverageSnapshot.php:52-57 | a load equal to the core count is 1.0 (100%), twice the count is 2.0 |
| Memory.MemorySnapshot.UsedPercentage | src/DTO/Metrics/Memory/MemorySnapshot.php:27-34 | 0 when total is 0; otherwise used/total*100 |
| Memory.MemorySnapshot.AvailablePercentage | src/DTO/Metrics/Memory/MemorySnapshot.php:39-46 | 0 when total is 0; otherwise available/total*100 |
| Memory.MemorySnapshot.SwapUsedPercentage | src/DTO/Metrics/Memory/MemorySnapshot.php:51-58 | guarded by the swap total, not the memory total |
| Memory.MemoryPercentageBounds | src/DTO/Metrics/Memory/MemorySnapshot.php:27-58 | consistent counts give shares in [0, 100]; usage is 100% exactly when used equals total |
| Network.NetworkInterfaceStats.TotalBytes | src/DTO/Metrics/Network/NetworkInterfaceStats.php:26-29 | received plus sent, at least each of them when both are non-negative |
| Network.NetworkInterfaceStats.TotalPackets | src/DTO/Metrics/Network/NetworkInterfaceStats.php:34-37 | received plus sent packets, bounded below likewise |
| Network.NetworkInterfaceStats.TotalErrors | src/DTO/Metrics/Network/NetworkInterfaceStats.php:42-45 | receive plus transmit errors, bounded below likewise |
| Network.NetworkInterfaceStats.TotalDrops | src/DTO/Metrics/Network/NetworkInterfaceStats.php:50-53 | receive plus transmit drops, bounded below likewise |
| Network.FirstPrefixRule | src/DTO/Metrics/Network/NetworkInterfaceType.php:27-48 | a rule list gives Other exactly when no rule's prefix starts the name |
| Network.FromInterfaceName | src/DTO/Metrics/Network/NetworkInterfaceType.php:27-48 | Other exactly when none of the prefixes starts the trimmed, lower-cased name |
| Network.FirstPrefixRuleDecides | src/DTO/Metrics/Network/NetworkInterfaceType.php:30-47 | the first matching prefix decides the type, however many later ones also match |
| Network.InterfaceTypeIgnoresCaseAndPadding | src/DTO/Metrics/Network/NetworkInterfaceType.php:27-30 | case and surrounding whitespace do not change the type |
| Network.ClassifyReadsFourChars | src/DTO/Metrics/Network/NetworkInterfaceType.php:30-47 | only the first four characters of the normalized name matter |
| Network.PrefixRulesAgree | src/DTO/Metrics/Network/NetworkInterfaceType.php:30-47 | two names that every prefix treats alike get the same type |
| Network.LoopbackExample | src/DTO/Metrics/Network/NetworkInterfaceType.php:32 | "lo0" is loopback |
| Network.EthernetExample | src/DTO/Metrics/Network/NetworkInterfaceType.php:33 | "eth0" is Ethernet |
| Network.WifiExample | src/DTO/Metrics/Network/NetworkInterfaceType.php:35 | "wlan0" is WiFi |
| Network.NetworkSnapshot.FindInterface | src/DTO/Metrics/Network/NetworkSnapshot.php:55-64 | None exactly when no interface has the name; otherwise the first that does |
| Network.NetworkSnapshot.FindByType | src/DTO/Metrics/Network/NetworkSnapshot.php:71-77 | exactly the interfaces of that type, drawn from the list |
| Network.NetworkSnapshot.FindActiveInterfaces | src/DTO/Metrics/Network/NetworkSnapshot.php:84-90 | exactly the interfaces that are up |
| Network.NetworkSnapshot.FindByMacAddress | src/DTO/Metrics/Network/NetworkSnapshot.php:95-104 | None exactly when no interface has the address; otherwise the first that does |
| Network.NetworkTotals | src/DTO/Metrics/Network/NetworkSnapshot.php:23-50 | the four snapshot totals are sums over the interfaces: additive over concatenation, and received plus sent is the sum of the per-interface byte totals |
| Network.ActiveOrInactive | src/DTO/Metrics/Network/NetworkSnapshot.php:84-90 | the active interfaces and the inactive ones together account for every interface |
| Network.ActiveSplit | src/DTO/Metrics/Network/NetworkSnapshot.php:84-90 | filtering by a predicate and by its negation splits the list's length |
| Network.FindByTypeInOrder | src/DTO/Metrics/Network/NetworkSnapshot.php:71-77 | the interfaces of a type in a + b are those in a followed by those in b, and one interface is kept exactly when it has the type, so order and repeats survive |
| Network.FindActiveInOrder | src/DTO/Metrics/Network/NetworkSnapshot.php:84-90 | the active interfaces of a + b are those of a followed by those of b, and one interface is kept exactly when it is up |
| Storage.PlainNameClassified | src/DTO/Metrics/Storage/FileSystemType.php:35-60 | a name with no surrounding space or capitals is classified by the match table |
| Storage.FileSystemTypeRoundTrip | src/DTO/Metrics/Storage/FileSystemType.php:12-60 | reading back any type's own string gives that type, Other included |
| Storage.FileSystemTypeIgnoresCaseAndPadding | src/DTO/Metrics/Storage/FileSystemType.php:35-38 | case and surrounding whitespace do not change the type |
| Storage.FileSystemTypeAlias | src/DTO/Metrics/Storage/FileSystemType.php:39-59 | each alias (vfat, msdos, hfsplus, ...) reads as the type it stands for |
| Storage.MountPoint.UsedPercentage | src/DTO/Metrics/Storage/MountPoint.php:27-34 | 0 when total is 0; otherwise used/total*100 |
| Storage.MountPoint.AvailablePercentage | src/DTO/Metrics/Storage/MountPoint.php:39-46 | 0 when total is 0; otherwise available/total*100 |
| Storage.MountPoint.InodesUsedPercentage | src/DTO/Metrics/Storage/MountPoint.php:51-58 | guarded by the inode total |
| Storage.MountPointPercentageBounds | src/DTO/Metrics/Storage/MountPoint.php:27-58 | consistent counts give shares in [0, 100] |
| Storage.DiskIOStats.TotalOperations | src/DTO/Metrics/Storage/DiskIOStats.php:25-28 | reads plus writes, at least each of them when non-negative |
| Storage.DiskIOStats.TotalBytes | src/DTO/Metrics/Storage/DiskIOStats.php:33-36 | bytes read plus written, at least each of them when non-negative |
| Storage.LongestPrefixMount | src/DTO/Metrics/Storage/StorageSnapshot.php:62-80 | None exactly when no mount path prefixes the path; otherwise a prefixing mount at least as long as every other |
| Storage.StorageSnapshot.UsedPercentage | src/DTO/Metrics/Storage/StorageSnapshot.php:48-56 | 0 when the summed total is 0; otherwise the summed used over the summed total, times 100 |
| Storage.StorageSnapshot.FindMountPoint | src/DTO/Metrics/Storage/StorageSnapshot.php:62-80 | filter, stable sort by descending length and take the first: equals the longest-prefix mount |
| Storage.StorageSnapshot.FindDevice | src/DTO/Metrics/Storage/StorageSnapshot.php:85-94 | None exactly when no mount is on the device; otherwise the first that is |
| Storage.StorageSnapshot.FindByFilesystemType | src/DTO/Metrics/Storage/StorageSnapshot.php:101-107 | exactly the mounts of that type, drawn from the list |
| Storage.FindByFilesystemTypeInOrder | src/DTO/Metrics/Storage/StorageSnapshot.php:101-107 | the mounts of a type in a + b are those in a followed by those in b, and one mount is kept exactly when it has the type, so order and repeats survive |
| Storage.StorageTotalsAppend | src/DTO/Metrics/Storage/StorageSnapshot.php:24-43 | the three byte totals are sums: additive over concatenation |
| Storage.StorageUsedWithinTotal | src/DTO/Metrics/Storage/StorageSnapshot.php:24-56 | consistent mounts give 0 <= used <= total and a share in [0, 100] |
| Storage.UsedSumWithinTotal | src/DTO/Metrics/Storage/StorageSnapshot.php:24-43 | the summed used bytes lie between 0 and the summed total |
| Storage.LongestPrefixIsFirstOfLongest | src/DTO/Metrics/Storage/StorageSnapshot.php:76-79 | among equally long matches the earliest mount wins, as the stable sort leaves it first |
| Storage.MostSpecificMountWins | src/DTO/Metrics/Storage/StorageSnapshot.php:62-80 | "/var/log" is on "/var", not "/" |
| Storage.PrefixIsNotSegmentAware | src/DTO/Metrics/Storage/StorageSnapshot.php:67 | the match is a plain string prefix: "/var" is the mount of "/variable" |
| Uptime.UptimeSnapshot.Days | src/DTO/Metrics/UptimeSnapshot.php:23-26 | the whole days: days*86400 <= seconds < (days+1)*86400 |
| Uptime.UptimeSnapshot.Hours | src/DTO/Metrics/UptimeSnapshot.php:31-34 | whole hours of the PHP remainder modulo a day, in [0, 23] for a non-negative uptime |
| Uptime.UptimeSnapshot.Minutes | src/DTO/Metrics/UptimeSnapshot.php:39-42 | whole minutes of the PHP remainder modulo an hour, in [0, 59] for a non-negative uptime |
| Uptime.UptimeSnapshot.TotalHours | src/DTO/Metrics/UptimeSnapshot.php:47-50 | hours times 3600 is the uptime, fractions included |
| Uptime.UptimeSnapshot.TotalMinutes | src/DTO/Metrics/UptimeSnapshot.php:55-58 | minutes times 60 is the uptime, fractions included |
| Uptime.UnitWord | src/DTO/Metrics/UptimeSnapshot.php:71-81 | the unit word is plural exactly when the count is not 1 |
| Uptime.UptimeSnapshot.Parts | src/DTO/Metrics/UptimeSnapshot.php:63-84 | one to three parts in day, hour, minute order; days and hours appear when positive; minutes appear when positive or when nothing else does |
| Uptime.UptimeSnapshot.HumanReadable | src/DTO/Metrics/UptimeSnapshot.php:63-84 | the appending loop yields the joined rendering of the parts |
| Uptime.UptimeDecomposition | src/DTO/Metrics/UptimeSnapshot.php:23-42 | days, hours and minutes account for the uptime to within a minute |
| Uptime.PartsCoverUptime | src/DTO/Metrics/UptimeSnapshot.php:63-84 | the parts shown account for the uptime to within a minute |
| Uptime.TextNonEmpty | src/DTO/Metrics/UptimeSnapshot.php:79-83 | the text is never empty |
| Uptime.UnderAMinute | src/DTO/Metrics/UptimeSnapshot.php:79-81 | under a minute reads "0 minutes" |
| Uptime.FiveDaysExample | src/DTO/Metrics/UptimeSnapshot.php:63-84 | 5 d 3 h 42 min 15 s reads "5 days, 3 hours, 42 minutes" |
| Uptime.SingularExample | src/DTO/Metrics/UptimeSnapshot.php:63-84 | one of each unit is singular: "1 day, 1 hour, 1 minute" |
| Uptime.HoursOnlyExample | src/DTO/Metrics/UptimeSnapshot.php:63-84 | two whole hours read "2 hours", with no minutes part |
| Process.ProcessDelta.CpuUsagePercentage | src/DTO/Metrics/Process/ProcessDelta.php:27-38 | 0 for a zero duration; otherwise percentage times duration equals the ticks (at 100 per second) |
| Process.ProcessUsageNonNegative | src/DTO/Metrics/Process/ProcessDelta.php:27-38 | non-negative ticks give a non-negative usage; one second of ticks per second is exactly 100% |
| Process.FieldsAfterName | src/Support/Parser/LinuxProcPidStatParser.php:52-63 | no fields exactly when the line has no ')' |
| Process.NameDoesNotShiftFields | src/Support/Parser/LinuxProcPidStatParser.php:52-63 | the fields come after the last ')', so a command name holding spaces or ')' does not shift them |
| Process.ParsePidStat | src/Support/Parser/LinuxProcPidStatParser.php:41-112 | the empty-content and missing-parenthesis errors; success exactly when 22 fields follow the name; the snapshot carries the pid asked for |
| Process.PidStatFieldMapping | src/Support/Parser/LinuxProcPidStatParser.php:72-104 | parent pid, utime, stime, threads, vsize and rss (times the page size) come from fields 1, 11, 12, 17, 20 and 21; the other tick counters are zero |
| Process.PidStatRoundTrip | src/Support/Parser/LinuxProcPidStatParser.php:41-112 | a stat line written from numbers reads back those numbers, whatever the command name |
| ProcessSource.ReadProcess | src/Sources/Process/LinuxProcProcessMetricsSource.php:25-38 | a failed stat read is passed through unchanged; a snapshot read carries the pid asked for, and its parent is the one the tree scan takes from the same stat file |
| ProcessSource.ParentOfStat | src/Sources/Process/LinuxProcProcessMetricsSource.php:118-131 | a parent is found exactly when a ')' is followed by at least two fields |
| ProcessSource.ParentAgreesWithParse | src/Sources/Process/LinuxProcProcessMetricsSource.php:118-131 | when the parser accepts a stat file, the scan reads from it the parent pid the parser reports, although only the parser trims |
| Process.FieldsAfterNameUnderTrim | src/Support/Parser/LinuxProcPidStatParser.php:43-63 | with three or more fields after the name, trimming the line first leaves the second field unchanged |
| ProcessSource.AddEntryCases | src/Sources/Process/LinuxProcProcessMetricsSource.php:107-138 | an entry without a parent changes nothing; otherwise its pid joins the end of its parent's list |
| ProcessSource.ChildrenInScanOrder | src/Sources/Process/LinuxProcProcessMetricsSource.php:97-141 | a pid's children are exactly the scanned pids naming it as parent, in scan order; only parents with children are keys |
| ProcessSource.BuildProcessTree | src/Sources/Process/LinuxProcProcessMetricsSource.php:97-141 | the scan loop builds exactly the parent-to-children map |
| ProcessSource.CollectDescendants | src/Sources/Process/LinuxProcProcessMetricsSource.php:149-165 | the walk yields the pre-order descendant list |
| ProcessSource.DescendantsMembers | src/Sources/Process/LinuxProcProcessMetricsSource.php:149-165 | a pid is a descendant exactly when it is a child or lies below one |
| ProcessSource.DescendantsBelow | src/Sources/Process/LinuxProcProcessMetricsSource.php:149-165 | in an acyclic map no process is its own descendant |
| ProcessSource.ChildDescendantsIncluded | src/Sources/Process/LinuxProcProcessMetricsSource.php:149-165 | descendants are closed under the child relation |
| ProcessSource.PreOrderExample | src/Sources/Process/LinuxProcProcessMetricsSource.php:156-162 | with 2 and 3 under 1 and 4 under 2, the walk from 1 is [2, 4, 3] |
| ProcessSource.DescendantsNoDuplicates | src/Sources/Process/LinuxProcProcessMetricsSource.php:149-165 | when each pid has one parent slot, the walk lists no pid twice |
| ProcessSource.ScanGivesUniqueChildren | src/Sources/Process/LinuxProcProcessMetricsSource.php:97-141 | a scan of distinct pids puts each pid under one parent, once |
| ProcessSource.GroupReadsEachPidOnce | src/Sources/Process/LinuxProcProcessMetricsSource.php:40-90 | with one scan of /proc, readProcessGroup reads each descendant once |
| ProcessSource.ReadChildren | src/Sources/Process/LinuxProcProcessMetricsSource.php:58-65 | the loop keeps exactly the successful reads, in descendant order |
| ProcessSource.ReadProcessGroup | src/Sources/Process/LinuxProcProcessMetricsSource.php:40-73 | the method equals the group function: root read, tree, walk, child reads |
| ProcessSource.ProcessGroupOutcome | src/Sources/Process/LinuxProcProcessMetricsSource.php:40-73 | only the root read can fail the group; on success the children are exactly the descendants whose reads succeed |
| FallbackSources.ReadChain | src/Sources/Cpu/FallbackCpuMetricsSource.php:26-55 | the loop returns the first success, or the prefix and the joined "Source i (class): message" entries |
| FallbackSources.ReadCpu | src/Sources/Cpu/FallbackCpuMetricsSource.php:26-55 | the CPU chain with the "All CPU metrics sources failed: " prefix |
| FallbackSources.ReadStorage | src/Sources/Storage/FallbackStorageMetricsSource.php:26-53 | the storage chain with its own prefix |
| FallbackSources.FirstSuccessWins | src/Sources/Cpu/FallbackCpuMetricsSource.php:30-35 | the first successful source's result is returned, after i + 1 reads |
| FallbackSources.SuccessIffSomeSource | src/Sources/Cpu/FallbackCpuMetricsSource.php:26-55 | the chain succeeds exactly when some source does |
| FallbackSources.AllFailed | src/Sources/Cpu/FallbackCpuMetricsSource.php:37-54 | when all fail, every source is read and each one's index, class and message appear in order; no sources gives the bare prefix |
| FallbackSources.LaterSourcesIgnored | src/Sources/Cpu/FallbackCpuMetricsSource.php:33-35 | once a prefix of the chain succeeds, appended sources are never read |
| LinuxDfParser.MountOfLine | src/Support/Parser/LinuxDfParser.php:40-72 | a line gives a mount exactly when it has six fields |
| LinuxDfParser.Parse | src/Support/Parser/LinuxDfParser.php:26-76 | the loop equals the parse function |
| LinuxDfParser.ParseTooShort | src/Support/Parser/LinuxDfParser.php:28-33 | fails exactly on fewer than two lines, with "df output too short"; blank output fails |
| LinuxDfParser.ParsedMountShape | src/Support/Parser/LinuxDfParser.php:52-72 | every mount has type Other, no inodes, and byte counts in whole kilobytes |
| LinuxDfParser.MalformedLineSkipped | src/Support/Parser/LinuxDfParser.php:40-50 | a blank or short line contributes nothing |
| LinuxDfParser.HeaderTextIgnored | src/Support/Parser/LinuxDfParser.php:35-36 | the header is dropped by position, whatever it says |
| LinuxDfParser.RowRoundTrip | src/Support/Parser/LinuxDfParser.php:52-72 | a written row reads back as its mount |
| LinuxDfParser.DfRoundTrip | src/Support/Parser/LinuxDfParser.php:26-76 | a header plus written rows reads back as their mounts, in order; no rows fails |
| LinuxDfParser.InodeEntryOfLine | src/Support/Parser/LinuxDfParser.php:101-122 | a line gives an entry exactly when it has six fields |
| LinuxDfParser.ParseInodes | src/Support/Parser/LinuxDfParser.php:87-126 | the loop equals the inode parse function |
| LinuxDfParser.InodeEntries | src/Support/Parser/LinuxDfParser.php:87-126 | a mount point is a key exactly when some line names it, and its counts come from the last such line |
| LinuxDfParser.ParseInodesTooShort | src/Support/Parser/LinuxDfParser.php:89-94 | fails exactly on fewer than two lines, with "df -i output too short" |
| LinuxProcLoadavgParser.ParseErrors | src/Support/Parser/LinuxProcLoadavgParser.php:28-57 | "Empty content" for blank input, "Insufficient fields" under three fields; otherwise the three casts |
| LinuxProcLoadavgParser.LoadavgRoundTrip | src/Support/Parser/LinuxProcLoadavgParser.php:28-57 | a written /proc/loadavg line reads back its three decimals |
| LinuxProcNetDevParser.InterfaceOfLine | src/Support/Parser/LinuxProcNetDevParser.php:44-91 | every parsed interface has no MAC, MTU 0, is up, and is typed by its name |
| LinuxProcNetDevParser.Parse | src/Support/Parser/LinuxProcNetDevParser.php:29-95 | the loop equals the parse function |
| LinuxProcNetDevParser.ParseTooShort | src/Support/Parser/LinuxProcNetDevParser.php:31-36 | fails exactly on fewer than three lines, with "/proc/net/dev content too short" |
| LinuxProcNetDevParser.ParsedInterfaceShape | src/Support/Parser/LinuxProcNetDevParser.php:75-91 | the same shape for every interface of a successful parse |
| LinuxProcNetDevParser.LineWithoutColonSkipped | src/Support/Parser/LinuxProcNetDevParser.php:51-54 | a line without ':' contributes nothing |
| LinuxProcNetDevParser.RowRoundTrip | src/Support/Parser/LinuxProcNetDevParser.php:45-91 | a row written as "name: counters" reads back as its interface |
| LinuxProcNetDevParser.CountersRead | src/Support/Parser/LinuxProcNetDevParser.php:63-88 | each counter is read from its own column |
| LinuxProcNetDevParser.DevRoundTrip | src/Support/Parser/LinuxProcNetDevParser.php:29-95 | two header lines plus written rows read back as their interfaces; no rows fails |
| LinuxProcUptimeParser.ParseErrors | src/Support/Parser/LinuxProcUptimeParser.php:26-58 | the empty, format and negative-seconds errors, each exactly when its condition holds |
| LinuxProcUptimeParser.ParsedSnapshot | src/Support/Parser/LinuxProcUptimeParser.php:42-57 | seconds are truncated to a non-negative whole, and boot time plus uptime is now |
| LinuxProcUptimeParser.UptimeRoundTrip | src/Support/Parser/LinuxProcUptimeParser.php:26-58 | a written /proc/uptime line reads back its whole seconds |
| MacOsDfParser.DetectOther | src/Support/Parser/MacOsDfParser.php:85-101 | Other exactly when none of the tests matches |
| MacOsDfParser.DetectFatFamily | src/Support/Parser/MacOsDfParser.php:97-98 | among FAT names, exfat wins over FAT32 |
| MacOsDfParser.DetectApfs | src/Support/Parser/MacOsDfParser.php:87-94 | APFS exactly for /dev/disk devices and names containing apfs |
| MacOsDfParser.ExfatContainsFat | src/Support/Parser/MacOsDfParser.php:97-98 | a name containing exfat also contains fat, so the test order matters |
| MacOsDfParser.MountOfMacLine | src/Support/Parser/MacOsDfParser.php:40-77 | a line gives a mount exactly when it has nine fields |
| MacOsDfParser.Parse | src/Support/Parser/MacOsDfParser.php:26-80 | the loop equals the parse function |
| MacOsDfParser.ParseTooShort | src/Support/Parser/MacOsDfParser.php:28-33 | fails exactly on fewer than two lines, with "df output too short" |
| MacOsDfParser.ParsedMountShape | src/Support/Parser/MacOsDfParser.php:53-77 | the type is guessed from the device, total inodes are used plus free, and bytes are whole kilobytes |
| MacOsDfParser.MalformedLineSkipped | src/Support/Parser/MacOsDfParser.php:40-51 | a blank or short line contributes nothing |
| MacOsDfParser.RowRoundTrip | src/Support/Parser/MacOsDfParser.php:53-77 | a written row reads back as its mount |
| MacOsDfParser.DfRoundTrip | src/Support/Parser/MacOsDfParser.php:26-80 | a header plus written rows reads back as their mounts; no rows fails |
| MacOsIostatParser.Idle | src/Support/Parser/MacOsIostatParser.php:79-87 | a disk is reported under its own name |
| MacOsIostatParser.Parse | src/Support/Parser/MacOsIostatParser.php:29-91 | the method equals the parse function |
| MacOsIostatParser.CollectDisks | src/Support/Parser/MacOsIostatParser.php:59-88 | the pairing loop yields the disk list |
| MacOsIostatParser.ParseTooShort | src/Support/Parser/MacOsIostatParser.php:31-36 | fails exactly on fewer than three lines, with "iostat output too short" |
| MacOsIostatParser.ReportedDisks | src/Support/Parser/MacOsIostatParser.php:59-88 | disk i is reported exactly when it is named and its three data fields exist, with zero counters |
| MacOsIostatParser.IostatRoundTrip | src/Support/Parser/MacOsIostatParser.php:29-91 | names, titles and three data fields per disk read back as one disk per name |
| MacOsNetstatConnectionParser.Parse | src/Support/Parser/MacOsNetstatConnectionParser.php:28-74 | the method equals the counting function |
| MacOsNetstatConnectionParser.Count | src/Support/Parser/MacOsNetstatConnectionParser.php:37-63 | the loop yields the four counts and their total for any line classification |
| MacOsNetstatConnectionParser.TotalWithinLines | src/Support/Parser/MacOsNetstatConnectionParser.php:65-73 | the parse never fails; the total is the sum of the four counts and at most the number of lines |
| MacOsNetstatConnectionParser.BlankOutputCountsNothing | src/Support/Parser/MacOsNetstatConnectionParser.php:28-74 | blank output gives all zeros |
| MacOsNetstatConnectionParser.OneMoreLine | src/Support/Parser/MacOsNetstatConnectionParser.php:37-63 | one more line raises exactly its own counter, and the total unless it is uncounted |
| MacOsNetstatConnectionParser.ClassifyOfFields | src/Support/Parser/MacOsNetstatConnectionParser.php:43-62 | a socket line is classified by its protocol and its sixth field |
| MacOsNetstatInterfaceParser.MacOfGroups | src/Support/Parser/MacOsNetstatInterfaceParser.php:64-67 | six one- or two-digit hex groups joined by ':' form a MAC address |
| MacOsNetstatInterfaceParser.NoColonNoMac | src/Support/Parser/MacOsNetstatInterfaceParser.php:64-67 | an address without ':' is not a MAC |
| MacOsNetstatInterfaceParser.InterfaceOfLine | src/Support/Parser/MacOsNetstatInterfaceParser.php:42-85 | a line gives an interface exactly when it has eleven fields |
| MacOsNetstatInterfaceParser.Parse | src/Support/Parser/MacOsNetstatInterfaceParser.php:28-89 | the loop equals the parse function |
| MacOsNetstatInterfaceParser.ParseTooShort | src/Support/Parser/MacOsNetstatInterfaceParser.php:30-35 | fails exactly on fewer than two lines, with "netstat output too short" |
| MacOsNetstatInterfaceParser.ParsedInterfaceShape | src/Support/Parser/MacOsNetstatInterfaceParser.php:54-85 | every interface is up with no drops, has an empty or well-formed MAC, and is typed by its name |
| MacOsNetstatInterfaceParser.RowRoundTrip | src/Support/Parser/MacOsNetstatInterfaceParser.php:42-85 | a written row reads back as its interface |
| MacOsNetstatInterfaceParser.AddresslessRowSkipped | src/Support/Parser/MacOsNetstatInterfaceParser.php:50-52 | a row missing its address column is too short and is skipped |
| MacOsNetstatInterfaceParser.NetstatRoundTrip | src/Support/Parser/MacOsNetstatInterfaceParser.php:28-89 | a header plus written rows reads back as their interfaces; no rows fails |
| MacOsSysctlBoottimeParser.FirstSecMatchLeftmost | src/Support/Parser/MacOsSysctlBoottimeParser.php:35-40 | the search returns the digits of the leftmost "sec = N" match |
| MacOsSysctlBoottimeParser.NoSecMatch | src/Support/Parser/MacOsSysctlBoottimeParser.php:35-38 | nothing is found exactly when no match starts anywhere |
| MacOsSysctlBoottimeParser.ParseErrors | src/Support/Parser/MacOsSysctlBoottimeParser.php:25-61 | the empty, no-match, zero-timestamp and future-boot errors; otherwise uptime is now minus boot |
| MacOsSysctlBoottimeParser.ParsedSnapshot | src/Support/Parser/MacOsSysctlBoottimeParser.php:40-60 | a parsed boot time is positive, and the uptime is non-negative and ends at now |
| MacOsSysctlBoottimeParser.BoottimeRoundTrip | src/Support/Parser/MacOsSysctlBoottimeParser.php:25-61 | a written "{ sec = N, usec = M }" record reads back boot time N |
| MacOsSysctlLoadavgParser.ParseErrors | src/Support/Parser/MacOsSysctlLoadavgParser.php:26-59 | "Empty output" for blank input, "Insufficient fields" under three fields after the braces come off; otherwise the three casts |
| MacOsSysctlLoadavgParser.EmptyBraces | src/Support/Parser/MacOsSysctlLoadavgParser.php:37-47 | "{ }" is too short, since splitting an empty string gives one field |
| MacOsSysctlLoadavgParser.SysctlRoundTrip | src/Support/Parser/MacOsSysctlLoadavgParser.php:26-59 | three written decimals read back, with or without braces |
| MacOsVmStatMemorySource.ReadMemory | src/Sources/Memory/MacOsVmStatMemoryMetricsSource.php:23-65 | equals the read function and runs exactly its commands, in order |
| MacOsVmStatMemorySource.CommandsInOrder | src/Sources/Memory/MacOsVmStatMemoryMetricsSource.php:23-53 | the commands run are a prefix of vm_stat, memsize, pagesize, stopping at the first failure, whose error is returned |
| MacOsVmStatMemorySource.FirstFailureWins | src/Sources/Memory/MacOsVmStatMemoryMetricsSource.php:23-53 | the i-th command failing after earlier successes returns its error, and nothing after it runs |
| MacOsVmStatMemorySource.AllCommandsSucceed | src/Sources/Memory/MacOsVmStatMemoryMetricsSource.php:55-64 | with all three outputs, the parser gets vm_stat, the trimmed memsize and the page size |
| MacOsVmStatMemorySource.PageSizeOfNumber | src/Sources/Memory/MacOsVmStatMemoryMetricsSource.php:55-58 | a numeric page size is used, and 0 falls back to 4096 |
| MacOsVmStatMemorySource.PageSizeOfJunk | src/Sources/Memory/MacOsVmStatMemoryMetricsSource.php:55-58 | non-numeric output falls back to 4096 |
| MacOsDfStorageSource.ReadStorage | src/Sources/Storage/MacOsDfStorageMetricsSource.php:27-63 | equals the read function and runs exactly its commands |
| MacOsDfStorageSource.ReadOutcome | src/Sources/Storage/MacOsDfStorageMetricsSource.php:30-47 | succeeds exactly when df runs and parses; a failed df gives "Failed to execute df command"; parse errors pass through |
| MacOsDfStorageSource.IostatDegrades | src/Sources/Storage/MacOsDfStorageMetricsSource.php:49-57 | disk I/O is the iostat result when it runs and parses, and empty otherwise; df and iostat both run |
| LinuxProcNetworkSource.ReadNetwork | src/Sources/Network/LinuxProcNetworkMetricsSource.php:27-69 | equals the read function and reads exactly its paths |
| LinuxProcNetworkSource.ReadOutcome | src/Sources/Network/LinuxProcNetworkMetricsSource.php:27-47 | succeeds exactly when /proc/net/dev reads and parses; a failed read gives "Failed to read /proc/net/dev"; parse errors pass through |
| LinuxProcNetworkSource.BlankNetDev | src/Sources/Network/LinuxProcNetworkMetricsSource.php:27-45 | with the default parser, blank /proc/net/dev fails as too short and nothing else is read |
| LinuxProcNetworkSource.ConnectionsOptional | src/Sources/Network/LinuxProcNetworkMetricsSource.php:49-68 | connections are present exactly when tcp and udp both read and parse |
| LinuxProcStorageSource.ReadStorage | src/Sources/Storage/LinuxProcStorageMetricsSource.php:30-97 | equals the read function, reads /proc/diskstats, and runs exactly its commands |
| LinuxProcStorageSource.ReadOutcome | src/Sources/Storage/LinuxProcStorageMetricsSource.php:43-59 | succeeds exactly when df -k runs and parses, with the fixed message or the parser's error otherwise |
| LinuxProcStorageSource.BlankDf | src/Sources/Storage/LinuxProcStorageMetricsSource.php:43-59 | with the default parser, blank df output fails as too short and df -i never runs |
| LinuxProcStorageSource.DiskstatsDegrades | src/Sources/Storage/LinuxProcStorageMetricsSource.php:32-41 | disk I/O is the diskstats result when it reads and parses, and empty otherwise |
| LinuxProcStorageSource.InodesDegrade | src/Sources/Storage/LinuxProcStorageMetricsSource.php:63-91 | a failed df -i leaves the df mounts as they are; both df commands run |
| LinuxProcStorageSource.MergeInodesFields | src/Sources/Storage/LinuxProcStorageMetricsSource.php:71-89 | the merge keeps each mount's other fields, takes inode counts keyed by mount point, and leaves unkeyed mounts untouched |
| LinuxProcStorageSource.MergeInodesIdempotent | src/Sources/Storage/LinuxProcStorageMetricsSource.php:71-89 | merging the same inode data twice changes nothing more |
| CompositeCpuSource.CompositeCpuMetricsSource.Create | src/Sources/Cpu/CompositeCpuMetricsSource.php:18-56 | an injected source is used as is; otherwise construction succeeds exactly when createSource does, with its route or its error |
| CompositeCpuSource.CompositeCpuMetricsSource.Read | src/Sources/Cpu/CompositeCpuMetricsSource.php:24-27 | read gives the chosen route's result |
| CompositeCpuSource.CreateSourceCases | src/Sources/Cpu/CompositeCpuMetricsSource.php:29-56 | Linux, Windows and FreeBSD get their source and macOS a three-source chain; any other OS fails with "Unsupported operating system: " and the family |
| CompositeCpuSource.MacOsPriority | src/Sources/Cpu/CompositeCpuMetricsSource.php:36-43 | on macOS, host_processor_info is tried first, sysctl second and the minimal source last |
| CompositeLoadAverageSource.CompositeLoadAverageSource.Read | src/Sources/LoadAverage/CompositeLoadAverageSource.php:32-42 | read gives the chosen source's result, or the unsupported-OS failure when there is none |
| CompositeLoadAverageSource.ReadCases | src/Sources/LoadAverage/CompositeLoadAverageSource.php:32-58 | Linux and macOS read their source; any other OS fails lazily, at read, with the family in the message |
| CompositeLoadAverageSource.InjectedWins | src/Sources/LoadAverage/CompositeLoadAverageSource.php:22-42 | an injected source is read whatever the platform |
| CompositeStorageSource.ReadCases | src/Sources/Storage/CompositeStorageMetricsSource.php:24-60 | each supported family reads its override or default; any other gives "Unsupported OS family: " and the family |
| CompositeStorageSource.LinuxDefault | src/Sources/Storage/CompositeStorageMetricsSource.php:39-45 | the Linux default tries statfs, then df, and succeeds exactly when one of them does |
| CompositeStorageSource.OverridesIndependent | src/Sources/Storage/CompositeStorageMetricsSource.php:24-60 | an override for one family never changes another family's read |
| CompositeNetworkSource.ReadCases | src/Sources/Network/CompositeNetworkMetricsSource.php:22-43 | Linux and Darwin read their override or default, independently; any other family fails with its name |
| CompositeUptimeSource.ReadCases | src/Sources/Uptime/CompositeUptimeSource.php:22-56 | an injected source wins; otherwise each of the four platforms reads its source, and any other fails with "Uptime metrics not supported on this platform" |
| CompositeContainerSource.ReadCases | src/Sources/Container/CompositeContainerMetricsSource.php:22-45 | an injected source wins; Linux reads cgroups; elsewhere the read succeeds with no cgroup and all six measurements absent |
| CompositeEnvironmentDetector.CompositeEnvironmentDetector.Create | src/Sources/Environment/CompositeEnvironmentDetector.php:18-44 | an injected detector is used without a platform test; otherwise construction succeeds exactly when createDetector does |
| CompositeEnvironmentDetector.CompositeEnvironmentDetector.Detect | src/Sources/Environment/CompositeEnvironmentDetector.php:24-27 | detect gives the chosen detector's result |
| CompositeEnvironmentDetector.CreateDetectorCases | src/Sources/Environment/CompositeEnvironmentDetector.php:29-44 | construction fails exactly off Linux, macOS and Windows, BSD included, with the family in the message |

## Left out

- File and command I/O. The file reader and process runner are classes
  whose outcomes are given functions. Each call is logged, but nothing is
  really read or run.
- `countFileDescriptors` in LinuxProcPidStatParser: the `glob` over
  `/proc/<pid>/fd` is I/O. The open-descriptor count is a parameter, and
  so is the page size from `SystemInfo::getPageSize()`.
- The `/proc` directory scan in `buildProcessTree`. The `glob` becomes a
  given sequence of (pid, stat read) entries in scan order. A failed
  `glob` gives the same empty map as an empty scan.
- Acyclicity of the process map. `collectDescendants` recurses without a
  visited set, so the model requires a rank that decreases from parent to
  child. On a cyclic map the PHP would not terminate.
- Clocks. `new DateTimeImmutable` becomes a `now` parameter in the uptime
  parsers. Snapshot timestamps, and the start and end times of CPU and
  process deltas, are not modelled.
- Floating point. Percentages and load averages are exact reals. `(float)`
  reads decimal text without exponent notation. `(int)` does not saturate
  at 64 bits.
- IntCast: ignores exponent notation. PHP 8 gives `(int)"1e3" == 1000`;
  the model reads the leading digits and gives 1.
- The `false` branch of `preg_split`. It cannot occur for the fixed
  pattern `/\s+/`, so it is left out.
- Collaborators outside the core are opaque parameters:
  - the diskstats, `/proc/net/tcp`/`udp`, `vm_stat` and cgroup parsers;
  - the statfs, FFI, Windows, FreeBSD and minimal sources;
  - the per-platform environment detectors.

  Injected parsers are parameters. Lemmas tie in the modelled parsers as
  the defaults.
- OsDetector is reduced to an `Os` value holding the family and the system
  name, on which `isLinux`, `isMacOs`, `isWindows`, `isFreeBSD` and
  `isBSD` are functions. The family checked "on every call" is an argument
  of each per-call router.
- FallbackSources: the `$index` in the aggregated message is the position
  in the list, which is what a PHP list gives.
- The container record's `CgroupVersion` and `ContainerLimits` come from
  `src/DTO/Metrics/Container`, which is not part of this model. The model
  declares the record from how the router builds it.
- The environment snapshot is not part of this model. The detector router
  is generic in its result type.
- The `SystemMetrics` facade, the `Actions`, `Config`, the
  `LinuxProcCpu`/`Meminfo`/`LoadAverage`/`Uptime` sources and the macOS
  sysctl sources are not modelled: they are outside the core.
- The exception classes are reduced to an error kind and a message.
