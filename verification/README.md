# Verification of pve-san-fenced

`pve-san-fenced` watches the multipath storage under running virtual machines and reboots
its Proxmox node when that storage is lost for long enough. A wrong decision either way is
expensive, so this project models the parts that decide and the parts they depend on, and
proves what they promise over whole runs, in Dafny 4.11. `dafny verify dfyconfig.toml`
checks everything.

| file | what it models |
|---|---|
| `Multipath.dfy`, `Fencer.dfy` | map evaluation and the `Fencer` class, with its whole evaluated history as ghost state |
| `FencerRuns.dfy`, `FencerGuarantees.dfy` | what runs of the fencer guarantee: counter, latch, comparisons of runs, forced decisions |
| `FencerOmissions.dfy` | when a reply without the list of path groups is harmless, and when it reboots a healthy node |
| `FencerDocumented.dfy` | the documented fencing rule, and exactly how far the code follows it |
| `Daemon.dfy` | the discovery thread and the monitoring loop, as interleaved lock-level events |
| `Sysfs.dfy`, `Lsblk.dfy`, `DeviceMaps.dfy` | the two searches for the multipath devices below a device, and their agreement |
| `DeviceNames.dfy`, `Discovery.dfy` | device-mapper name mangling, matching of disks, and the LUN keys the fencer reads |
| `Tokenizer.dfy`, `ConfigParser.dfy`, `ConfigGuarantees.dfy`, `ConfigValues.dfy` | the multipath configuration compiler |
| `Merge.dfy`, `Thresholds.dfy`, `ConfigCheck.dfy` | effective settings, their validation for every map in use, and the timing it buys |
| `StatusText.dfy`, `StatusTracker.dfy`, `StatusProgress.dfy` | the status report, its writer protocol and why it never gets stuck, and the status query |
| `Wire.dfy` | the framing on multipathd's socket, both ends |
| `Text.dfy`, `Wrappers.dfy` | splitting, joining, sorting, trimming; optional values and 64-bit numbers |

Where the source changes state, the model does too: the fencer, the daemon loop, the visited
set, the token iterator, the status tracker and the stream are classes whose methods are
proved against functions of the history or of the old state. The parser and the tokenizer,
which peek ahead, are proved against automata that never do.

## Where code and documentation differ

The model follows the code.

- `README.md:28` says that a node is fenced when all paths of any monitored WWID are down, and
  that paths in the states "faulty", "failed" and "offline" are down.
  - Which paths are down: src/lib.rs:242 counts "failed", "faulty" and "ghost", and "offline"
    only as the state of a whole group. Of the maps that are down by the documentation the code
    counts those as dead that offer no "offline" path in a usable group
    (`FencingDocumented.DownIsDeadIff`), so as documented the rule holds only while nothing is in
    use (`FencingDocumented.DocumentedRuleIff`).
  - How many maps it takes: the code wants a dead member of a "+" group, or every active LUN dead
    (src/lib.rs:475-505). `FencingGuarantees.AnyDeadMapRule` says for exactly which LUN sets and
    target WWIDs one map that the code counts as dead is enough;
    `FencingDocumented.DocumentedRuleWithoutOfflineIff` says the same of the documented states
    without "offline".
- The comment at src/lib.rs:204-205 says that a map without path groups is treated as alive, so
  that an omission in one reply causes no false fencing. But src/lib.rs:413-428 counts it as a map
  without paths and latches it dead. `FencingOmissions.OmissionIsSafeIff` says for exactly which
  runs omissions cause no false fencing, whatever comes after; `FencingOmissions.OneOmissionFences`
  has the plainest input that fails: a map that is alone in use and lists a live path in every
  reply but one.
- A block under an unknown name is skipped between sections (src/config.rs:133-146), but inside
  `devices` it ends the section (src/config.rs:122-123), and the devices behind it are lost:
  `ConfigGuarantees.UnknownBlockIsHarmlessIff` for blocks that mean nothing else to the parser,
  `ConfigGuarantees.UnknownBlockKeepsDevicesIff` for any.
- The comment at src/lib.rs:461 says the latch is kept when a map is no longer monitored; the
  next lines clear it. `FencingRuns.LatchIsHistory` has the exact condition.
- A cycle without monitored maps resets the counter but leaves the "fencing" alert standing
  (src/lib.rs:466-473); `FencingGuarantees.AlertIsLastVerdict` says what the alert means and
  `FencingGuarantees.AlertWithoutCount` when it stands although the counter is zero.

## Assumptions

- The products `max_failures * poll_interval` and retries times interval, and the sums in the
  validator, are unchecked in the source. `Thresholds.NoOverflow` bounds the validator's, for the
  maps in use; the timing results use the mathematical product for the fencing time.
- A regular expression engine is any pair of a partial compile function and a match function.
- Slave graphs and printouts from lsblk describe the same devices under the conditions spelled
  out in `DeviceMaps.Consistent` and `DeviceMaps.NamesApart`; the sysfs search itself needs none.

## Model

| member | source | states |
|---|---|---|
| `Multipath.IsMapDead` | src/lib.rs:201-266 | the nested loops with early exits report a map dead exactly when it has a group list and, outside groups reported "offline" or "failed", every listed path is reported "failed", "faulty" or "ghost" |
| `Multipath.ListsPathsIff` | src/lib.rs:413-422 | the path count is positive exactly when some group lists a path |
| `Multipath.FirstMatchIff` | src/lib.rs:484 | among several maps with an identifier the lookup takes the first of the reply |
| `Multipath.FirstMatch` | src/lib.rs:484 | the lookup finds a map carrying the identifier whenever one exists |
| `Fencing.Parts` | src/lib.rs:392-397 | the two ways a LUN key is read are one: its pieces between "+" signs, two or more exactly for a spanned key |
| `Fencing.Filter` | src/lib.rs:388-406 | the monitored maps are exactly the returned maps that some active LUN names and the target list allows |
| `Fencing.FilterKeepsOrder` | src/lib.rs:388-406 | the monitored maps keep the order and the repetitions of the reply |
| `Fencing.Fencer.constructor` | src/lib.rs:347-356 | a new fencer is the fencer of the empty history |
| `Fencing.Fencer.Update` | src/lib.rs:370-376 | a reply that does not parse changes nothing and never fences |
| `Fencing.Fencer.UpdateWithMaps` | src/lib.rs:380-564 | all fields stay the function of the history they are claimed to be, the history grows by this cycle, and the result is the fencing decision for it |
| `Fencing.Fencer.WalkMonitored` | src/lib.rs:410-454 | the walk leaves both latch sets, the dead states and the previous states as folding the maps in order does |
| `Fencing.Fencer.Prune` | src/lib.rs:456-464 | after pruning the previous states are this cycle's dead states and the latch sets hold monitored names only |
| `Fencing.Fencer.EvaluateLuns` | src/lib.rs:475-505 | whatever order the LUN set is visited in, the condition is "some spanned group has a dead member or every LUN is dead" |
| `Fencing.Fencer.Decide` | src/lib.rs:466-563 | counter, alert and decision of a cycle, saturating at 64 bits |
| `FencingRuns.CounterIsTrailingFailures` | src/lib.rs:466-517 | the counter has reached k exactly when the last k evaluated cycles failed, for every k that fits 64 bits |
| `FencingRuns.DecisionIsThreshold` | src/lib.rs:512-563 | a cycle ends in the decision exactly when it and the cycles before it fill the threshold with failures |
| `FencingRuns.FailureHasDeadMap` | src/lib.rs:475-505 | a cycle fails only while a monitored map is dead |
| `FencingRuns.LatchIsHistory` | src/lib.rs:412-464 | a name is latched exactly when it listed paths, later listed none, and was monitored ever since it listed them; also for replies with repeated names |
| `FencingRuns.LatchNext` | src/lib.rs:412-464 | what one more cycle adds to and removes from the two latch sets |
| `FencingRuns.CollectionsNest` | src/lib.rs:424-464 | latched names had paths, names that had paths are monitored, previous states cover exactly the monitored names, and latched maps are dead |
| `FencingGuarantees.ErasedMapNotDeader` | src/lib.rs:201-266 | leaving reported states out keeps the path count and never makes a map dead |
| `FencingGuarantees.ErasedCycle` | src/lib.rs:380-564 | from states that are no worse, a cycle with states left out ends no worse and fences only if the full one does |
| `FencingGuarantees.ErasureNeverFences` | src/lib.rs:201-565 | leaving states out of any replies of a run changes no latch, never raises the counter and causes no decision the run did not have |
| `FencingGuarantees.PinnedCycleFails` | src/lib.rs:435-503 | a cycle in which a latched map belongs to an active group, or is all that is in use, fails and keeps the latch |
| `FencingGuarantees.LatchedMapForcesDecision` | src/lib.rs:424-547 | after a map lost its paths, every later cycle that pins it fails whatever its paths do, and the decision falls within the threshold number of them |
| `FencingGuarantees.OneDeadMapFails` | src/lib.rs:475-505 | where no map that LUNs and targets allow can be outvoted, one dead monitored map makes the cycle fail |
| `FencingGuarantees.LoneDeadMapIsTolerated` | src/lib.rs:475-505 | wherever some map can be outvoted, a concrete reply has it dead and the cycle does not fail |
| `FencingGuarantees.AnyDeadMapRule` | src/lib.rs:388-505 | "any dead monitored map counts" holds of the code exactly for the LUN sets and target WWIDs under which no map can be outvoted |
| `FencingGuarantees.OneSufficesWithoutTargets` | src/lib.rs:399-403 | without target WWIDs that means: every single LUN is alone in use or also in a group |
| `FencingGuarantees.AlertIsLastVerdict` | src/lib.rs:466-561 | the alert is the verdict on the last cycle that monitored a map, even after the counter was reset |
| `FencingGuarantees.AlertWithoutCount` | src/lib.rs:466-561 | the alert stands with the counter at zero exactly when the last cycle monitored nothing and the last monitored cycle failed |
| `FencingGuarantees.NothingMonitored` | src/lib.rs:466-473 | a run that never monitored a map leaves the fencer as it was at the start |
| `FencingOmissions.OmittedCycle` | src/lib.rs:380-564 | from states that are no worse, a cycle without a harmful omission ends no worse and fences only if the full one does |
| `FencingOmissions.HarmlessOmissionsNeverFence` | src/lib.rs:201-565 | leaving out path groups, where it keeps back no paths of a map known to have had some that the full reply leaves unlatched, latches no more, raises no counter and causes no decision |
| `FencingOmissions.OmissionIsSafeIff` | src/lib.rs:204-428 | for all runs, repeated names included: omissions never cause a decision, however the runs go on after any cycle, exactly when none of them is harmful, and exactly then nothing more is latched after any cycle |
| `FencingOmissions.LatchesNoSoonerIff` | src/lib.rs:413-428 | the same for the latch at every map within a cycle, where what is not yet latched counts as unlatched |
| `FencingOmissions.DistinctNamesAtOnce` | src/lib.rs:412-428 | where no name is listed twice the two conditions are one |
| `FencingOmissions.OneOmissionFences` | src/lib.rs:204-428 | for every threshold, one reply without path groups makes a run with a live path in every reply end in a decision, while the full run never fails a cycle |
| `FencingDocumented.DownIsDeadIff` | src/lib.rs:219-262 | a map whose listed paths are all "faulty", "failed" or "offline" is dead exactly when no usable group of it has an "offline" path |
| `FencingDocumented.DocumentedRuleIff` | src/lib.rs:219-505 | that one such monitored map fails the cycle holds, for all states and plain replies, only while no LUN is in use |
| `FencingDocumented.DocumentedRuleWithoutOfflineIff` | src/lib.rs:219-505 | for maps without such an "offline" path it holds exactly where no map can be outvoted |
| `FencingDocumented.DeadInCycleIff` | src/lib.rs:412-441 | in a cycle that lists no name twice a monitored map is dead exactly when its reported states leave it no path or it is latched |
| `FencingDocumented.PathlessMapRule` | src/lib.rs:201-505 | that one monitored map without a path left by its reported states fails the cycle holds exactly where no map can be outvoted |
| `Daemon.EventKeepsInvariant` | src/main.rs:427-615 | every event of either thread keeps the fencer equal to the run of the evaluated polls, all of them fresh and complete |
| `Daemon.ReachedKeepsInvariant` | src/main.rs:427-615 | the same for every reachable state of every interleaving |
| `Daemon.RebootIsJustified` | src/main.rs:41-44 | in every interleaving a reboot happens exactly outside test mode when this and the preceding evaluated polls fill the threshold with failures, each on the record current at its tick and at most two discovery intervals old when checked |
| `Daemon.SkippedPollsChangeNothing` | src/main.rs:541-584 | stale, unanswered and unparsable polls and discovery itself leave the fencer alone and never reboot |
| `Daemon.CheckedGoesOnIff` | src/main.rs:41-44 | a poll goes on from its staleness check exactly when its record is at most two discovery intervals old |
| `Daemon.DaemonLoop.PublishDiscovery` | src/main.rs:439-449 | a successful discovery replaces the shared record and nothing else |
| `Daemon.DaemonLoop.CheckStaleness` | src/main.rs:541-553 | the poll goes on only with a fresh copy |
| `Daemon.DaemonLoop.FinishPoll` | src/main.rs:558-615 | each outcome of the query is the matching event, and reboots exactly when that event does |
| `Sysfs.FindMultipathsForDm` | libpve-san/src/sysfs.rs:23-53 | for every slave graph, cyclic or shared, and every directory order the walk ends, and from an empty visited set returns exactly the mpath names reachable without passing through a multipath device |
| `Sysfs.MultipathsOfIff` | libpve-san/src/sysfs.rs:23-53 | in terms of the files: a name is in the result exactly when it starts with "mpath" and stands, between white space, in the dm/name file of a device to which slaves directories lead over "dm-" entries of devices without such a name |
| `Sysfs.ClosedSetHoldsChain` | libpve-san/src/sysfs.rs:42-49 | a set closed under the walk's edges holds every chain that starts in it |
| `Sysfs.ClosedIsReachable` | libpve-san/src/sysfs.rs:23-53 | what a fresh walk visited is the whole reachable set |
| `Lsblk.BuildMpathMap` | libpve-san/src/lib.rs:468-490 | the stack walk ends on every forest and adds to each name exactly the innermost mpath at or above each occurrence, and no empty entries |
| `Lsblk.TaggedUnfold` | libpve-san/src/lib.rs:471-488 | the innermost mpath of occurrences in a forest, one level at a time |
| `DeviceMaps.BuildSysfsMap` | libpve-san/src/lib.rs:359-369 | each key holds what the last device writing it found, and only devices with multipath devices below write |
| `DeviceMaps.ForestExists` | libpve-san/src/lib.rs:326-336 | every acyclic slave graph has an lsblk printout |
| `DeviceMaps.LineageSound` | libpve-san/src/lib.rs:471-488 | the innermost mpath on a printed line of descent is found by the sysfs search |
| `DeviceMaps.ChainComplete` | libpve-san/src/sysfs.rs:40-50 | whatever the search finds is the innermost mpath of some printed occurrence |
| `DeviceMaps.WalksAgree` | libpve-san/src/lib.rs:326-370 | for every device both searches find the same multipath devices |
| `DeviceMaps.MapsAgree` | libpve-san/src/lib.rs:326-370 | for every mapped device the map built from lsblk and the one built from sysfs have the same entry |
| `DeviceMaps.KernelNameIsAlias` | libpve-san/src/lib.rs:359-369 | under the kernel name of a mapped device the sysfs map repeats its entry and the lsblk map has none |
| `DeviceNames.UnmangleMangle` | libpve-san/src/lib.rs:492-498 | a decoder recovers vg and lv whenever lv does not start with a hyphen |
| `DeviceNames.MangleCollision` | libpve-san/src/lib.rs:492-498 | for all inputs, two storages share a device name exactly when one is the other with hyphens moved across the colon |
| `DeviceNames.StorageNamesInjective` | libpve-san/src/lib.rs:492-498 | storages whose lv does not start with a hyphen never share a device name |
| `DeviceNames.PlainStorageKeepsName` | libpve-san/src/lib.rs:492-506 | a storage without a colon is its own name in both spellings |
| `DeviceNames.StorageNameDecodes` | libpve-san/src/lib.rs:492-506 | vg and lv are recovered from the name of a storage, and lv from its legacy name |
| `DeviceNames.LegacyDiffersOnHyphen` | libpve-san/src/lib.rs:500-506 | the legacy name differs exactly when vg contains a hyphen |
| `Discovery.MatchesBestSpelling` | libpve-san/src/lib.rs:387-407 | a disk gets the set of its best known spelling, and none exactly when no spelling is known |
| `Discovery.DevicePathMatches` | libpve-san/src/lib.rs:387-407 | a disk given by its device path gets the set known under that path, else the one known under the bare name |
| `Discovery.VolumeMatches` | libpve-san/src/lib.rs:387-392 | a disk on a logical volume gets the set known under the name that decodes to it, and only in its absence the one under the legacy name |
| `Discovery.ResolveDisks` | libpve-san/src/lib.rs:386-427 | every matching disk gets the one mapper name and device path of its set, whatever order the set is listed in, others are untouched, and the VM's list is the sorted union |
| `Discovery.PathNameParts` | libpve-san/src/lib.rs:413-417 | the device path splits into the paths of the set in sorted order |
| `Discovery.CollectLuns` | src/lib.rs:152-188 | the keys are exactly those of the resolved disks of running VMs |
| `Discovery.KeyIsLossless` | src/lib.rs:157-184 | joining, splitting, sorting and joining again loses nothing: the fencer reads back the sorted set, and a "+" appears exactly for two or more members |
| `Discovery.KeyIgnoresOrder` | src/lib.rs:157-184 | the key is the same for every order in which the mapper name lists the devices |
| `Discovery.KeyIsInjective` | src/lib.rs:178-184 | different sets get different keys |
| `Discovery.ActiveIffUsed` | src/lib.rs:388-398 | a map is active exactly when its name or uuid is in the multipath set of a running VM's disk |
| `Text.SplitJoin` | src/lib.rs:157 | splitting undoes joining when a character of the separator occurs in no part |
| `Text.JoinSplit` | src/lib.rs:157 | joining undoes splitting for every string, and no piece holds the pattern |
| `Text.TrimIff` | libpve-san/src/sysfs.rs:33 | trimming leaves exactly what stands between white space at both ends |
| `Text.WhitespaceIs` | src/config.rs:32 | the characters that count as white space, one by one |
| `Text.LexLeIff` | libpve-san/src/lib.rs:411 | the sorting order puts a prefix first and otherwise decides at the first difference |
| `Text.SortCanonical` | libpve-san/src/lib.rs:410-411 | sorting gives one result for every order of arrival |
| `Tokenizer.Tokenize` | src/config.rs:10-83 | the peeking loop yields the tokens of an automaton that takes one character at a time |
| `Tokenizer.SeparatorSplits` | src/config.rs:32-64 | outside quotations and comments white space ends a token and a brace is one |
| `Tokenizer.CommentIgnored` | src/config.rs:38-49 | from "#" or "!" outside quotations to the end of the line nothing counts |
| `Tokenizer.WordIsToken` | src/config.rs:71-80 | a word without white space, braces, quotes and comment characters is one token as it stands |
| `Tokenizer.LinesConcat` | src/config.rs:10-83 | a newline outside quotes separates token lists |
| `Tokenizer.LinesConcatIff` | src/config.rs:10-83 | texts can be tokenized piecewise, for every continuation, exactly when the first ends outside quotes |
| `ConfigParser.ParseBlock` | src/config.rs:178-231 | the block read is the automaton's, and exactly the tokens through the matching brace are consumed |
| `ConfigParser.BlockEndIsMatchingBrace` | src/config.rs:178-189 | after a balanced body the matching brace is the one right behind it |
| `ConfigParser.ParseDevices` | src/config.rs:113-127 | the devices loop, with its early end at any closing brace, follows the automaton |
| `ConfigParser.SkipSection` | src/config.rs:133-146 | unknown sections are skipped through their matching brace or to the end |
| `ConfigParser.ParseMultipathConfig` | src/config.rs:101-151 | the parse of a text is the automaton's result on its tokens |
| `ConfigGuarantees.ForeignSectionIgnored` | src/config.rs:133-146 | after any input that ends between sections and before any other, a balanced section under an unknown name changes nothing |
| `ConfigGuarantees.ForeignTextIgnored` | src/config.rs:10-151 | the same for texts |
| `ConfigGuarantees.UnknownBlockEndsDevices` | src/config.rs:115-125 | inside the devices section an unknown block, nested blocks included, that holds no device and no section ends the devices section and changes nothing else |
| `ConfigGuarantees.ReadAlike` | src/config.rs:101-231 | what the rest of an input adds does not depend on the configuration read so far |
| `ConfigGuarantees.ListedDevicesStored` | src/config.rs:113-127 | a list of balanced device blocks adds one device each, the same after any input |
| `ConfigGuarantees.DevicesAfterUnknownBlockAreLost` | src/config.rs:113-146 | wherever an inert unknown block stands in a devices section, the result is that without the block minus exactly the devices between it and the next unknown block or the end of the section |
| `ConfigGuarantees.UnknownBlockIsHarmlessIff` | src/config.rs:113-146 | so the block is harmless exactly when no device follows it before the next unknown block or the end of the section |
| `ConfigGuarantees.UnknownBlockLands` | src/config.rs:113-146 | behind any unknown block the parser is between sections or still among the devices, and has added the same devices whatever came before |
| `ConfigGuarantees.UnknownBlockEffect` | src/config.rs:113-146 | any unknown block adds the devices it holds itself and, if it ends the section, costs exactly the devices listed behind it |
| `ConfigGuarantees.UnknownBlockKeepsDevicesIff` | src/config.rs:113-146 | so any unknown block leaves the devices alone exactly when those it holds make up for those it costs |
| `ConfigGuarantees.PrintLexes` | src/config.rs:10-83 | quoting with doubled quotes survives tokenizing, for all values |
| `ConfigGuarantees.ParsePrinted` | src/config.rs:101-231 | parsing a printout gives the configuration without the values that are among nineteen reserved words |
| `ConfigGuarantees.RoundTrip` | src/config.rs:101-231 | parsing undoes printing exactly for the configurations in which no value is one of the reserved words |
| `ConfigGuarantees.KnownKeysAreReserved` | src/config.rs:153-176 | the known keys are exactly those words |
| `ConfigValues.UsualValuesComeBack` | src/config.rs:101-231 | "queue", "fail", "infinity" and every number come back from a printout in every field of every block |
| `ConfigValues.BlockIsLastSettings` | src/config.rs:178-231 | a block holds for each of the five settings the last value given for it, and nothing of any other |
| `ConfigValues.ParseU64Iff` | src/config.rs:221 | a value is read as a number exactly when it is its decimal form, behind zeros and one plus sign if any, and fits 64 bits |
| `ConfigValues.NestedBlockIgnored` | src/config.rs:182-226 | a block nested in a block leaves its settings alone |
| `ConfigValues.UnfinishedBlockCounts` | src/config.rs:178-231 | a block that the input breaks off in counts as if it were closed there |
| `Merge.GetMergedConfig` | src/config.rs:233-282 | each tunable is the override if set, else the value of the last matching device that sets it, else the default |
| `Merge.DeviceMatchesIff` | src/config.rs:238-262 | an entry applies exactly when every pattern it has compiles and matches |
| `Merge.GetMergedConfigCompiled` | src/config.rs:346-391 | the same over precompiled patterns |
| `Merge.CompilingKeepsMatches` | src/config.rs:309-341 | compiling first changes neither the entries nor which of them match |
| `Merge.MergedUnique` | src/config.rs:233-282 | the description above leaves one result only |
| `Merge.MergesAgree` | src/config.rs:343-391 | for every configuration and every engine both merges give the same result |
| `Thresholds.ValidateMergedDeviceConfig` | src/config.rs:397-463 | the warnings issued are exactly the warranted ones |
| `Thresholds.NoWarningIffSafe` | src/config.rs:397-463 | there is no warning exactly for settings that queue 15 s past the fencing time and lose the device 60 s past it and after the queue time |
| `Thresholds.DecisionInTime` | src/lib.rs:512-547 | with every poll evaluated, failure that lasts from its onset gets a decision at most threshold times interval later, counted from one interval before the first poll where it is older |
| `Thresholds.DecisionBeforeLoss` | src/main.rs:589-595 | with settings that draw no warning, that is at least 15 s before queued I/O fails and 60 s before device loss, and device loss comes after |
| `ConfigCheck.CheckMapsConfig` | src/config.rs:466-512 | from the configuration text on, every map in use is either safe or reported with exactly the warnings its effective settings warrant, and nothing else is reported |
| `ConfigCheck.SafeIsNotReported` | src/config.rs:489-512 | no map is both safe and reported |
| `ConfigCheck.MissingCountsAsEmpty` | src/config.rs:486-487 | a vendor or product that is not reported is matched as the empty string |
| `ConfigCheck.TextIsSafeIff` | src/config.rs:10-463 | from a written-out configuration with defaults alone to the verdict: safe exactly when I/O is queued 15 s past the fencing time and the device is lost 60 s past it and after the queue, with retries every five seconds unless an interval is set |
| `StatusText.Render` | src/status.rs:120-139 | the report names the gravest level and its messages in sorted order, whatever order the issues are visited in |
| `StatusText.MessagesWithout` | src/status.rs:130-134 | the collected messages do not depend on which issue is taken first |
| `StatusText.MessageCount` | src/status.rs:130-134 | each message is collected once for every issue of the level that carries it |
| `StatusText.ReportSplits` | src/status.rs:130-139 | the report splits back into exactly the messages of the gravest level, ascending and with repetitions, where none contains a semicolon |
| `StatusText.QueryReadsLevel` | src/main.rs:290-310 | the status query reads back the gravity of the gravest issue, whatever the messages contain |
| `StatusText.ExitCodeIff` | src/main.rs:290-310 | for any content, the query reports a level exactly when the content starts, after white space, with its name |
| `StatusTracker.StepKeepsInvariant` | src/status.rs:67-169 | every lock-level step of every thread keeps the protocol's invariant |
| `StatusTracker.OneWriterAtATime` | src/status.rs:141-168 | in every interleaving at most one writer is live |
| `StatusTracker.QuietFileIsCurrent` | src/status.rs:67-169 | once nothing is in flight and a writer was spawned since the path was set, the file is the report of the current issues and the query reads their gravity |
| `StatusTracker.IssueIsLastTouch` | src/status.rs:67-97 | after any interleaving an issue is active under a key exactly when the last step that set or cleared the key, by itself or by a prefix, set it, or none did and it was active at the start |
| `StatusTracker.WriteFollowsIff` | src/status.rs:67-102 | a removal leads to a write exactly when there was something to remove, the other changes always do |
| `StatusTracker.FlushWaitsForWriter` | src/status.rs:105-110 | when a flush returns, no writer is live |
| `StatusProgress.NeverStuck` | src/status.rs:105-168 | a reachable tracker is quiet exactly when no thread inside an operation and no writer can go on |
| `StatusProgress.FinishingDecreases` | src/status.rs:105-168 | every step of a thread inside an operation and of a writer leaves less in flight |
| `StatusProgress.RunsSettle` | src/status.rs:105-168 | letting what is in flight finish in any order ends after a bounded number of steps, with a current status file |
| `StatusProgress.CanSettle` | src/status.rs:105-168 | every reachable tracker can become quiet without a new operation |
| `StatusTracker.Tracker.InsertIssue` | src/status.rs:67-73 | recording an issue is the locked step and always leads to a write |
| `StatusTracker.Tracker.RemoveIssue` | src/status.rs:76-84 | removing an issue leads to a write exactly when it was there |
| `StatusTracker.Tracker.RemoveIssuesWithPrefix` | src/status.rs:87-97 | exactly the issues whose keys do not start with the prefix remain, and the size comparison detects exactly the removals that change the map |
| `StatusTracker.Tracker.ContinueWrite` | src/status.rs:113-169 | each locked action of the write is the protocol's next step, with the rendered report of the guarded issues |
| `StatusTracker.Tracker.ContinueFlush` | src/status.rs:105-110 | each action of a flush is the protocol's next step |
| `Wire.LeBijection` | libmultipath/src/lib.rs:199-222 | little-endian lengths and their bytes determine each other |
| `Wire.LeastSignificantFirst` | libmultipath/src/lib.rs:199-222 | each byte of a length counts 256 times as much as the one before it |
| `Wire.IsUtf8Iff` | libmultipath/src/lib.rs:257-259 | text is accepted exactly when it encodes a sequence of Unicode scalar values |
| `Wire.Stream.ReadExact` | libmultipath/src/lib.rs:205-247 | filling a buffer takes exactly its bytes off the stream for every chunking, or reports how the stream ended |
| `Wire.SendCommand` | libmultipath/src/lib.rs:193-202 | a command without NUL is written as one frame, any other is refused and nothing is written |
| `Wire.ReceiveReply` | libmultipath/src/lib.rs:204-260 | the reply is a function of the bytes and the ending alone, the rest of the stream stays unread, and each failure has its error |
| `Wire.FailuresIff` | libmultipath/src/lib.rs:206-247 | which failure is reported for which ending of a stream that is cut short and for which length |
| `Wire.LastByteIgnored` | libmultipath/src/lib.rs:249-252 | the last byte of a payload counts as NUL whatever it is |
| `Wire.SendCommandOnStream` | libmultipath/src/lib.rs:99-119 | a command and its reply over one connection; an unsendable command reads nothing |
| `Wire.ReadCommand` | tools/mpath-mockd/src/main.rs:356-393 | the server takes exactly one frame within its limit, up to the first NUL |
| `Wire.WriteReply` | tools/mpath-mockd/src/main.rs:430-472 | a reply is written as one frame |
| `Wire.ReplyRoundTrip` | libmultipath/src/lib.rs:222-260 | a framed reply comes back as sent, and the rest stays unread, exactly when it has no NUL, is UTF-8 and fits the limit |
| `Wire.TextRoundTrip` | libmultipath/src/lib.rs:204-260 | every sequence of scalar values other than NUL that fits comes back as it was sent |
| `Wire.CommandRoundTrip` | tools/mpath-mockd/src/main.rs:365-393 | the server reads back every command the client can send within the limit |

## Left out

- The warnings `missing_dm_st_*` and `missing_path_groups_*` that map evaluation reports, and all log messages: text beside the decision.
- Socket connection, timeouts, file-descriptor wrapping, `pvesh`, tokio runtimes and panic recovery: their outcomes are inputs or errors of the model.
- JSON decoding: the model starts from parsed maps and lsblk trees, with a parse failure as one outcome.
- `trigger_fencing`, SysRq validation and the other start-up checks: short branches around writes to /proc and process exit.
- The discovery backoff: a capped power that only changes when the next discovery starts.
- Size parsing, extraction of disks from VM configurations and block-device listing: library-bound or easy.
- Failing writes and renames of the status file, and the names of its temporary files: writers in the model succeed.
- The mock server's choice of a response and its hang mode, the lossy decoding of malformed commands, the command-line tools, `pvesh-mock` and packaging.
- Missed ticks: the timing results assume that polls come at the configured interval and are all evaluated.
- ConfigGuarantees.UnknownBlockKeepsDevicesIff: speaks of the devices alone, because an unknown block with a `defaults` or `overrides` section behind its first closing brace sets those as well.
- Lock fairness: a thread that can go on is assumed to go on at some time; `StatusProgress` says that there is one and that this ends.
