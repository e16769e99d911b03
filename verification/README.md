# Verified model of the storage worker

The worker seals IPFS files inside an SGX enclave, keeps a table of them and of random "srd"
gigabytes, validates both, and reports increments to a chain. Outside the enclave a scheduler admits
calls and an allocator spreads srd work over the disks. This project models the logic of those parts
and proves what they keep over whole runs, what they compute for every input, and, where a natural
property turned out to be false of the code, exactly when it holds.

`dafny verify dfyconfig.toml` checks everything.

## What is modelled

| module | file | part of the worker |
|---|---|---|
| `Dag`, `Unfolding`, `SealingCounters` | Dag.dfy, Unfolding.dfy, Sealing.dfy | the counters by which sealing decides that a file is complete |
| `Base58`, `Links` | Base58.dfy, Links.dfy | block identifiers, and the links inside a DAG-PB block |
| `FileTable`, `Agreement`, `Ending`, `Reporting`, `Settling`, `FileWorkload` | FileTable.dfy, Agreement.dfy, Ending.dfy, Report.dfy, Settling.dfy, Workload.dfy | the sorted file table, the three statuses, the end of a sealing section by section, the report, its confirmation, and what reports amount to |
| `Json`, `JsonText`, `Spelling`, `Fio` | Json.dfy, JsonText.dfy, Spelling.dfy, Fio.dfy | the JSON printer and parser, the language that the parser accepts, the object that remembers insertion order |
| `Scheduler` | Scheduler.dfy | the queue in front of the enclave |
| `SrdStore`, `SrdTurn`, `SrdCap` | SrdStore.dfy, SrdTurn.dfy, SrdCap.dfy | the srd list, one srd turn, the limit on srd |
| `Transfer` | Transfer.dfy | large data crossing the enclave boundary in pieces |
| `Gate`, `Upgrade` | Gate.dfy, Upgrade.dfy | when a report may be made, and the handover to a new version |
| `Basics`, `Order`, `Runs` | Basics.dfy, Order.dfy, Runs.dfy | bytes, positional notation, the order of std::string, runs of a machine |

State that the code updates in place is a class: `FileWorkload.Workload`, `Fio.FioObject`,
`Scheduler.EnclaveQueue`, `SrdStore.Srd`, `SrdCap.SrdTask`, `Transfer.Enclave`, `Gate.ReportGate`,
`Upgrade.Workload`. Their methods are proved to take steps of a specification on values, and the
results over runs are about that specification.

## Main results

- A file is accepted exactly when the blocks that arrived are the tree unfolding of its root, in any
  order of arrival, provided no other call is between counting a block and counting its links; from the
  start to the end, a file sent undisturbed is sealed if and only if that is what was sent, with the sum
  of the block lengths as its size. In
  general an accepted file is whole if and only if as many links were counted as its blocks have.
  Links are acyclic, as block hashes make them; over an arbitrary graph the counters decide the
  unfolding if and only if no part of the blocks pays for itself.
- The chain holds exactly the files with ORIGIN = VALID after every run that erases no file which an
  open report adds and seals no file over an entry that the chain knows; a report is always a legal
  increment; the claimed size is the total of the table when the report is confirmed, whatever careful
  steps came in between; k confirmed reports settle 300 k files. After every such run, enough reports
  leave the chain with exactly the files that are VALID, sizes included, if and only if no file is VALID
  with ORIGIN = DELETED.
- `Load(dump_vector(v))` gives `v` back if and only if its strings do not begin with the hash tag and
  its keys are the escaped form of such strings.
- `Load` succeeds on a text, with a value and a rest, if and only if the text is white space, a spelling of
  that value by a grammar given apart from the parser, and that rest. So layout does not matter, and of
  several members with one key the last one counts.
- Every identifier has 46 characters, begins with "Qm", determines the digest, and is the only text over the
  Base58 alphabet without a leading '1' that decodes to the multihash.
- Under every interleaving of its critical sections the queue counts right: at most 32 slots, at most
  31 for lower priorities, no guard against zero ever fires, no negative count of higher tasks, and
  30 failed tries before a priority-2 request gives up.
- Deferred deletion by index removes exactly the entries that were marked; srd_remove_space marks
  exactly the last entries of each disk; allocation is level; the srd limit is exceeded by at most 64,
  and 64 is reached.
- Chunked transfer calls the handler exactly once per session on exactly its bytes, for all sessions
  and keys, if each session starts while its key is free; any other start loses a session for good.
- Upgrade handover restores the same lists and checks the very message that was signed.
- The verdict on an attempt to report is determined by the events before it: the attempts that passed, what
  was said about the files, and the proofs given since.

## Where the code does less than it seems to

Each of these is proved, with the exact condition.

- get_hashs_from_block drops all links of a block when nothing follows the last link
  (`Links.LinksRecoveredIffDataFollows`).
- An end of sealing that comes between the two critical sections of a block accepts an incomplete file:
  every root with links is accepted alone (`SealingCounters.EarlyEndHappens`,
  `SealingCounters.EarlyEndIsWholeIff`).
- A block that is fetched while its file is ended or cleaned up enters its counter again, for a file that
  is no longer under seal (src/enclave/storage/Storage.cpp:154-205), and any call may count its links, or
  its size, for the next sealing of the same root (`Agreement.LateSectionsReachNextSealing`). A whole file
  that is then sent is accepted if and only if such links pay for exactly such blocks
  (`SealingCounters.RestartAcceptsIff`): the links of one earlier block are enough to refuse it
  (`SealingCounters.LateLinksRefuse`), and they can make up for a block left behind
  (`SealingCounters.LateLinksPay`). If only links of blocks that were left behind are counted, it is
  accepted if and only if nothing was left behind (`SealingCounters.RestartOverOwnLinksIff`).
- Counters that late blocks have entered without a start are refused (`SealingCounters.StrayIsRefused`),
  unless links are counted too late as well (`SealingCounters.StrayPasses`); ending that sealing replaces
  an entry that the chain knows as valid, and worker and chain disagree (`Agreement.SealEndAgreesIff`,
  `Agreement.LateBlocksDisagree`, `Agreement.LateBlocksReachable`).
- storage_seal_file_end copies the counters long before it writes the table. Two ends of one root around a
  report make worker and chain disagree (`Ending.TwoEndsDisagree`); the write keeps the agreement if and
  only if it does not replace an entry with ORIGIN = VALID (`Ending.WriteAgreesIff`), which cannot happen
  if no end begins beside another one of its root or over an older entry (`Ending.OrderlyRunAgrees`).
- Two exits of storage_seal_file leave a block counted but not stored, without a clean-up
  (src/enclave/storage/Storage.cpp:244, 257), so the size of the file is too small; a block of an earlier
  sealing that is recorded late makes it too large (`SealingCounters.LateRecordOversizes`). It is right if
  and only if what is recorded besides is as large as what is missing (`SealingCounters.SizeIsWholeIff`).
- A file that is reported as added, deleted and collected before the report is confirmed stays on the
  chain although the worker has forgotten it (`Agreement.AcceptAgreesIff`,
  `Agreement.DeletedInWindowDisagrees`).
- A deletion between the validation of a file and the change of its status is undone
  (`Agreement.ValidationUndoesDeletionIff`).
- A file that was deleted, whose deletion the chain has taken, and that a validation then turns LOST and VALID
  again is never reported: the worker keeps it and the chain does not (`Settling.UndoneDeletionIsStuck`,
  `Settling.RunSettlesIff`).
- Deleting a file under seal whose blocks are all there seals it: it is not collected, and the next report
  puts it on the chain (`Settling.DeletedPendingIsSealedIff`).
- The signature of the handover covers height and block hash as one text; where one ends and the other begins
  is covered if and only if the block hashes have equal lengths, which the importer does not check
  (`Upgrade.MessageBindsIff`).
- The parser takes runs of digits and signs like "1-2" for numbers, takes any value for a key, and reads a
  backslash with an unknown character behind it as the backslash alone (`Spelling.LoadIff`).
- A link field that runs to the end of its block or beyond, or whose hash is no SHA-256 multihash, drops the
  links before it too, while one of another kind only ends them (`Links.CutFieldDropsAll`,
  `Links.BadHashDropsAll`, `Links.ForeignFieldEndsLinks`).
- A JSON key that begins with the hash tag is lost even if no character of it needs escaping
  (`Json.TaggedKeyIsLost`).
- An insertion-ordered object does not print an empty key, shows a second member when a key with special
  characters is assigned again (`Fio.ReassignShowsIff`), and shows two members for a new key like "5-x",
  though not for one like "5-" (`Fio.NewKeyShowsIff`). A key that is the name of another member, like "0-a",
  does not reach the list at all (`Fio.NameAsKeyShows`).
- A lower-priority task gives way only to two or more waiting tasks of higher priority, although the
  comment in src/app/ecalls/EnclaveQueue.cpp:207 says "there exists" (`Scheduler.AdmittedIff`,
  `Scheduler.LowerPassesOne`). A task that blocks another one can get inside between the looks and the try
  of that one (`Scheduler.BlockerOvertakes`): it is then in the running queue if and only if its threads
  have entered that more often than they have left it since the look (`Scheduler.BlockerRunsIff`). With
  nothing in between it is inside if and only if it had just got its slot
  (`Scheduler.UnbrokenLooksExcludeIff`, `Scheduler.EnteringBlockerIsMissed`).
- srd_remove_space runs its unsigned index past zero when a disk is asked for more entries than it has
  (`SrdStore.Srd.RemoveSpace`); two data paths with one uuid ask for that (`SrdTurn.SharedUuidAsksTooMuch`).
  Asking again before the marked entries are dealt with frees only what exceeds the first request
  (`SrdStore.SecondRequestMarks`, `SrdStore.FurtherAreExcess`).
- change_srd_task does not count the turn in flight (`SrdCap.LimitIsPassed`): a run stays within the limit
  if and only if every change in it leaves room for the turn (`SrdCap.StaysWithinIff`).
- A transfer that starts while an unfinished one holds its key, or over a shorter buffer that a broken-off
  one has left behind, loses a session (`Transfer.UnsafeStartLoses`): bytes mix (`Transfer.SharedKeyMixes`)
  or are written beyond the buffer (`Transfer.LongerOverruns`).
- At exactly one slot after the last report the upgrade computes a height that the report refuses
  (`Gate.UpgradeHeight`).
- A table whose files are all pending cannot be handed over (`Upgrade.Handover`), nor can a file whose CID
  begins with the hash tag be read back (`Upgrade.ExportReadsIff`, `Upgrade.EntryCleanIff`).
- src/enclave/report/Report.cpp:74 speaks of the first four reports after a restart; the flag is set to
  1, so it is one. The model follows the code.

## Model

| member | source | states |
|---|---|---|
| `Dag.BalancedIffUnfolding` | src/enclave/storage/Storage.cpp:201-226 | over an acyclic graph, every CID arrived as often as root and links ask for it if and only if the blocks are, as a multiset, the tree unfolding of the demand |
| `Dag.BalancedIsUnfolding` | src/enclave/storage/Storage.cpp:201-226 | the hard direction: by peeling off a block of highest rank, balance forces the whole unfolding |
| `Dag.UnfoldingIsBalanced` | src/enclave/storage/Storage.cpp:201-226 | the unfolding, in any order of arrival, is balanced |
| `Dag.CycleBalancesForeignBlock` | src/enclave/storage/Storage.cpp:343-349 | why links are taken to be acyclic: over a graph with a self-link, balance holds although a foreign block was listed |
| `Unfolding.BalancedUnfoldsIff` | src/enclave/storage/Storage.cpp:343-349 | over any graph, blocks that balance are a finite unfolding of the demand if and only if no part of them pays for itself |
| `Unfolding.AcyclicPaysForNothing` | src/enclave/storage/Storage.cpp:343-349 | over an acyclic graph no blocks pay for themselves |
| `SealingCounters.AllZeroMeans` | src/enclave/storage/Storage.cpp:343-349 | all counters are zero if and only if each identifier arrived as often as the root and the links of the counted blocks ask for it |
| `SealingCounters.AcceptedIsWholeIff` | src/enclave/storage/Storage.cpp:343-349 | an accepted file is whole if and only if as many links were counted as its blocks have |
| `SealingCounters.EndAcceptsIffWholeFile` | src/enclave/storage/Storage.cpp:343-349 | with no call between its critical sections, the zero test passes exactly for the whole file |
| `SealingCounters.WholeSentIff` | src/enclave/storage/Storage.cpp:12-279 | from a start on a root that is not under seal, and any list of blocks sent one after the other and saved: the counters pass if and only if the identifiers of the blocks are, as a multiset, the unfolding of the root; the size is the sum of the lengths |
| `SealingCounters.SealBlockExplains` | src/enclave/storage/Storage.cpp:191-274 | a saved call accounts for its block, for its links and for its size |
| `SealingCounters.SettledAcceptsIff` | src/enclave/storage/Storage.cpp:343-349 | when every counted block has had its links counted, the zero test decides the unfolding |
| `SealingCounters.EarlyEndIsWholeIff` | src/enclave/storage/Storage.cpp:201-226 | when the test passes while blocks are between their sections, the file is whole if and only if those blocks have no links |
| `SealingCounters.EarlyEndHappens` | src/enclave/storage/Storage.cpp:201-226 | for every block with links: as a root it passes the test alone, between its two sections, and is not the whole file |
| `SealingCounters.StrayIsRefused` | src/enclave/storage/Storage.cpp:191-206 | counters that late blocks have entered without a start never pass, as long as only links of counted blocks are counted |
| `SealingCounters.StrayPasses` | src/enclave/storage/Storage.cpp:191-226 | with the links of a parent that was counted for an earlier sealing they pass, for every parent and child |
| `SealingCounters.RestartAcceptsIff` | src/enclave/storage/Storage.cpp:59 | a whole file sent after an earlier sealing of its root is accepted if and only if the links counted late pay for exactly the blocks counted late |
| `SealingCounters.RestartOverOwnLinksIff` | src/enclave/storage/Storage.cpp:191-226 | if links are counted late of stale blocks only, it is accepted if and only if no block is stale |
| `SealingCounters.LateLinksRefuse` | src/enclave/storage/Storage.cpp:214-226 | the links of one block of the earlier sealing refuse the whole file, with no stale block |
| `SealingCounters.LateLinksPay` | src/enclave/storage/Storage.cpp:191-226 | the links of an earlier parent make up for a stale child, and the whole file is accepted |
| `SealingCounters.SizeIsWholeIff` | src/enclave/storage/Storage.cpp:263-274 | the size of a file is that of all its blocks if and only if what was recorded besides them is as large as what is missing |
| `SealingCounters.SizeIsWholeIfStored` | src/enclave/storage/Storage.cpp:263-274 | if only counted blocks are recorded, it is so if and only if every block with content reached its third section |
| `SealingCounters.LateRecordOversizes` | src/enclave/storage/Storage.cpp:263-274 | one block of an earlier sealing recorded late makes the size too large |
| `SealingCounters.CollisionFreeIsConsistent` | src/enclave/storage/Storage.cpp:201-226 | distinct digests make the links of the arrived blocks a well-defined graph |
| `SealingCounters.StartTallies` | src/enclave/storage/Storage.cpp:59 | expecting the root once more keeps the counters explained by the log |
| `SealingCounters.TakeTallies` | src/enclave/storage/Storage.cpp:201-206 | counting a block down keeps the counters explained by the log |
| `SealingCounters.LinkTallies` | src/enclave/storage/Storage.cpp:214-226 | counting its links up keeps them explained |
| `SealingCounters.Identify` | src/enclave/storage/Storage.cpp:201-213 | the identifier of a block is that of its digest, the empty block having a fixed one |
| `SealingCounters.IdentifyLinks` | src/enclave/storage/Storage.cpp:214-226 | the identifiers of the children are those of the parsed link hashes, in order |
| `Base58.HashToCid` | src/enclave/utils/EUtils.cpp:783-820 | the text is the Base58 numeral of 0x12 0x20 and the digest; the carry never leaves the buffer |
| `Base58.Encode` | src/enclave/utils/EUtils.cpp:734-776 | yields the numeral of the denoted number exactly if it is below 58^size |
| `Base58.FoldByte` | src/enclave/utils/EUtils.cpp:744-759 | one round of the carry loop multiplies the denoted number by 256 and adds the byte, and leaves a carry exactly if that does not fit |
| `Base58.Spell` | src/enclave/utils/EUtils.cpp:760-776 | the text without leading zeros is the canonical numeral of the buffer |
| `Base58.NumeralDenotes` | src/enclave/utils/EUtils.cpp:734-776 | the digits denote exactly the encoded number |
| `Base58.NumeralIsCanonical` | src/enclave/utils/EUtils.cpp:734-776 | a numeral without leading zero is the only one of its number |
| `Base58.CidFits` | src/enclave/utils/EUtils.cpp:783-820 | every multihash is below 58^47 |
| `Base58.CidShape` | src/enclave/utils/EUtils.cpp:783-820 | every identifier has 46 characters and begins with "Qm" |
| `Base58.CidInjective` | src/enclave/utils/EUtils.cpp:783-820 | equal identifiers come from equal digests |
| `Base58.LettersAre` | src/enclave/utils/EUtils.h:52-53 | the letters are the ASCII letters and digits but for 0, O, I and l, in ascending order |
| `Base58.LetterIsInAlphabet` | src/enclave/utils/EUtils.h:52-53 | letter d is the d-th character of the alphabet spelled out |
| `Base58.TextDecodes` | src/enclave/utils/EUtils.cpp:734-776 | a text is that of the bytes if and only if it decodes, by places in the alphabet, to their number and has no leading '1' |
| `Base58.CidDecodes` | src/enclave/utils/EUtils.cpp:783-820 | the identifier decodes to the multihash |
| `Links.GetHashsFromBlock` | src/enclave/storage/Storage.cpp:588-709 | for arbitrary bytes every read is in bounds, the index grows, and the result is that of the specification |
| `Links.ReadVarint` | src/enclave/storage/Storage.cpp:618-643 | a length is read with 32-bit wrap-around, or refused past the end or past 64 bits |
| `Links.ReadLink` | src/enclave/storage/Storage.cpp:600-700 | one link is found, skipped or makes the block malformed, and reading stays inside the block |
| `Links.LinksRecoveredIffDataFollows` | src/enclave/storage/Storage.cpp:588-709 | the digests of an encoded link list are returned in order if and only if there are none or something follows; otherwise all are dropped |
| `Links.ReadsVarint` | src/enclave/storage/Storage.cpp:618-643 | a Base 128 varint below 2^31 is read back as its value |
| `Links.CutFieldDropsAll` | src/enclave/storage/Storage.cpp:644-648 | links followed by a field that does not end before the block does: nothing is returned |
| `Links.ForeignFieldEndsLinks` | src/enclave/storage/Storage.cpp:651-655 | links followed by a field that does not begin with a hash: exactly those links |
| `Links.BadHashDropsAll` | src/enclave/storage/Storage.cpp:682-692 | links followed by a hash field that ends in no SHA-256 multihash: nothing |
| `FileTable.Search` | src/enclave/workload/Workload.cpp:1019-1048 | the binary search finds the position of the CID, or its insertion point when it is absent |
| `FileTable.BelongsOnce` | src/enclave/workload/Workload.cpp:1019-1048 | the insertion point is unique |
| `FileTable.InsertIsMapInsert` | src/enclave/workload/Workload.cpp:1056-1076 | insertion at that point keeps the table sorted and is insertion into the map |
| `FileTable.EraseIsMapRemove` | src/enclave/workload/Workload.cpp:1083-1102 | erasing keeps it sorted and is removal from the map |
| `FileTable.UpdateIsMapUpdate` | src/enclave/storage/Storage.cpp:399-413 | replacing an entry is an update of the map |
| `Agreement.RunAgrees` | src/enclave/workload/Workload.cpp:554-577 | after every careful run the chain's files are those with ORIGIN = VALID, with their sizes, and an open report adds absent and deletes present files only; blocks that come too late are steps of the run |
| `Agreement.StepKeeps` | src/enclave/storage/Storage.cpp:484-579 | every operation, unless it seals over an entry that the chain knows as valid, keeps that agreement, also while a report is open |
| `Agreement.NothingLost` | src/enclave/workload/Workload.cpp:967-1000 | exactly the steps that erase an added file of an open report endanger it |
| `Agreement.AcceptAgreesIff` | src/enclave/workload/Workload.cpp:554-577 | confirmation leaves worker and chain in agreement if and only if every added file is still in the table with WAITING = VALID |
| `Agreement.DeletedInWindowDisagrees` | src/enclave/workload/Workload.cpp:967-1000 | for every file about to be added: deleted and collected before confirmation, it stays on the chain only |
| `Agreement.SealEndAgreesIff` | src/enclave/storage/Storage.cpp:399-413 | the end of a sealing keeps the agreement if and only if it does not replace an entry with ORIGIN = VALID |
| `Agreement.LateBlocksDisagree` | src/enclave/storage/Storage.cpp:154-226 | for every file that worker and chain hold, a late block and late links make a sealing that ends in disagreement |
| `Agreement.LateBlocksReachable` | src/enclave/storage/Storage.cpp:154-226 | a state in which that can happen, from any state with room for a file |
| `Agreement.LateSectionsReachNextSealing` | src/enclave/storage/Storage.cpp:201-274 | a block counted for one sealing counts its links and its size for the next, after a clean-up and a new start |
| `Ending.OrderlyRunAgrees` | src/enclave/storage/Storage.cpp:287-431 | with the sections of every end as steps of their own: worker and chain agree after every run in which no end begins beside another one of its root or over an older entry |
| `Ending.TwoEndsDisagree` | src/enclave/storage/Storage.cpp:287-431 | for every complete file, two ends of it around a report make worker and chain disagree |
| `Ending.WriteAgreesIff` | src/enclave/storage/Storage.cpp:399-413 | the write keeps the agreement if and only if it does not replace an entry with ORIGIN = VALID |
| `Ending.Undisturbed` | src/enclave/storage/Storage.cpp:287-431 | in a row the sections are the end of the sealing as one step |
| `Agreement.ValidationUndoesDeletionIff` | src/enclave/validator/Validator.cpp:391-435 | a file deleted after its validation stays in the table, not DELETED and not collected, if and only if the snapshot is of the same sealing and was VALID or LOST; agreement is kept |
| `Agreement.DeleteMeans` | src/enclave/storage/Storage.cpp:484-531 | the entry, the buffer and the sealing after a deletion, for every status; everything about other files is as before |
| `Settling.SettlesIff` | src/enclave/report/Report.cpp:157-186 | after reports for all of a sorted table, the files with ORIGIN = VALID are those with CURRENT = VALID, sizes included, if and only if no entry has a pair of statuses that is never reported |
| `Settling.ChainSettlesIff` | src/enclave/workload/Workload.cpp:554-577 | the same of the chain, with every report confirmed |
| `Settling.RunSettlesIff` | src/enclave/report/Report.cpp:157-186 | after every careful run that is so if and only if no file is VALID with ORIGIN = DELETED |
| `Settling.LostLeavesChain` | src/enclave/validator/Validator.cpp:399-425 | a file on the chain whose validation fails is off it after any confirmed report that picks it |
| `Settling.FoundReturnsToChain` | src/enclave/validator/Validator.cpp:399-425 | a file known as lost that is found again is back on it, with its size |
| `Settling.FlipTwiceRestores` | src/enclave/validator/Validator.cpp:399-425 | two changes of status, each of the entry as it is, restore everything |
| `Settling.UndoneDeletionIsStuck` | src/enclave/validator/Validator.cpp:399-425 | how a file comes to be VALID and never reported |
| `Settling.DeletedPendingIsSealedIff` | src/enclave/storage/Storage.cpp:518-521 | a pending file that is deleted survives the clean-up, and reaches the chain, if and only if it is complete and can be stored |
| `Settling.CollectedIff` | src/enclave/workload/Workload.cpp:984-987 | the clean-up takes a file if and only if it is deleted, in the buffer and not on the chain |
| `Settling.StartsIff` | src/enclave/storage/Storage.cpp:538-579 | a sealing starts if and only if there is room and the file is new, or deleted and neither on the chain nor known as lost |
| `Reporting.ScanTable` | src/enclave/report/Report.cpp:128-189 | one pass freezes WAITING, lists the first 300 outstanding files, and claims the total of the chain after delivery |
| `Reporting.ScanEntry` | src/enclave/report/Report.cpp:134-188 | one entry extends the lists, the set and the claim to those of one entry more |
| `Reporting.ListsAreReport` | src/enclave/report/Report.cpp:159-186 | the two lists are the two halves of the report on the picked files |
| `Reporting.ClaimIsDeliveredTotal` | src/enclave/report/Report.cpp:149-187 | the claimed size is the total size of the delivered files |
| `Reporting.ClaimHoldsWhenConfirmed` | src/enclave/report/Report.cpp:149-187 | for every careful run between report and confirmation, the claimed size is the total size of the files with ORIGIN = VALID in the table afterwards |
| `Reporting.OriginTotalIsTotal` | src/enclave/report/Report.cpp:152-155 | adding up the ORIGIN = VALID entries of the table gives the total of the map |
| `Reporting.ReportDrains` | src/enclave/report/Report.cpp:157-186 | a confirmed report reduces the outstanding files by min(300, outstanding) |
| `Reporting.ReportsDrainAll` | src/enclave/report/Report.cpp:157-186 | k confirmed reports settle 300 k files, and all once that is enough |
| `Reporting.ScanForUpgrade` | src/enclave/report/Report.cpp:138-146 | an upgraded worker claims the files that are VALID now and on the chain |
| `Reporting.SettledIsOriginTotal` | src/enclave/report/Report.cpp:138-146 | that is what the chain holds when none of its files has changed |
| `Reporting.ConfirmFiles` | src/enclave/workload/Workload.cpp:554-577 | exactly the reported files that are still in the table take WAITING as ORIGIN |
| `FileWorkload.Workload.SealFileStart` | src/enclave/storage/Storage.cpp:12-73 | the protocol step, with all refusals in the order of the code, also over what late blocks have left |
| `FileWorkload.Workload.CheckSealFileDup` | src/enclave/storage/Storage.cpp:538-579 | refuses files that are pending, present or still held by the chain, otherwise leaves a fresh pending entry |
| `FileWorkload.Workload.CountBlock` | src/enclave/storage/Storage.cpp:94-106 | the section that looks the file up and counts the block down |
| `FileWorkload.Workload.CountFetched` | src/enclave/storage/Storage.cpp:191-206 | the section that counts a fetched block without another look-up, making the entry if it is gone |
| `FileWorkload.Workload.CountLinks` | src/enclave/storage/Storage.cpp:214-226 | the second one counts the links up and logs them |
| `FileWorkload.Workload.CountBytes` | src/enclave/storage/Storage.cpp:263-274 | the third section adds the size of the block and logs it as stored |
| `FileWorkload.Workload.CleanUp` | src/enclave/storage/Storage.cpp:109-138 | a failed call ends the sealing and erases a pending entry |
| `FileWorkload.Workload.SealFile` | src/enclave/storage/Storage.cpp:81-279 | the sections in a row, with the error paths and the exits that skip the clean-up; a saved call adds its block to what is taken, linked and stored |
| `FileWorkload.Workload.SealFileEnd` | src/enclave/storage/Storage.cpp:287-431 | accepted exactly if complete and stored; an accepted file is the whole unfolding of its root if and only if as many links were counted as its blocks have, and its size is that of the stored blocks |
| `FileWorkload.Workload.SealWholeFile` | src/enclave/storage/Storage.cpp:12-431 | start, blocks and end in a row: the file is sealed if and only if the blocks are the unfolding of its root and the tree is stored; its size is the sum of the block lengths, and otherwise it is not in the table |
| `FileWorkload.Workload.DeleteFile` | src/enclave/storage/Storage.cpp:484-531 | the entry becomes DELETED, and a pending file is ended at once |
| `FileWorkload.Workload.ChangeStatus` | src/enclave/validator/Validator.cpp:391-435 | VALID and LOST change places if the entry is still the validated one |
| `FileWorkload.Workload.DealDeletedFile` | src/enclave/workload/Workload.cpp:967-1000 | deleted files that the chain does not hold leave table and buffer |
| `FileWorkload.Collect` | src/enclave/workload/Workload.cpp:967-1000 | the loop erases exactly the erasable files of the buffer |
| `FileWorkload.Workload.GenWorkReport` | src/enclave/report/Report.cpp:122-189 | the report step, whose claim is the chain's total after delivery |
| `FileWorkload.Workload.GenUpgradeReport` | src/enclave/report/Report.cpp:138-146 | an upgraded worker lists nothing and changes no status |
| `FileWorkload.Workload.HandleReportResult` | src/enclave/workload/Workload.cpp:554-577 | the confirmation step |
| `FileWorkload.CheckCounters` | src/enclave/storage/Storage.cpp:343-349 | the test passes if and only if all counters are zero |
| `FileWorkload.Expect` | src/enclave/storage/Storage.cpp:214-226 | each child is expected once more |
| `FileWorkload.AcceptedIsWhole` | src/enclave/storage/Storage.cpp:343-349 | zero counters mean the whole file exactly under that condition, for every acyclic graph that fits the blocks |
| `Json.RoundTripIffClean` | src/enclave/utils/Json.h:847-969 | printing and loading gives the value back and consumes exactly the text, if and only if the value is clean |
| `Json.ReadsBack` | src/enclave/utils/Json.h:1728-1753 | the same in any context: with anything behind it that may follow, a printed clean value is read whole and nothing more |
| `Json.TaggedKeyIsLost` | src/enclave/utils/Json.h:1498-1509 | no object with a plain key that begins with the hash tag comes back |
| `Json.NextKeyed` | src/enclave/utils/Json.h:1235-1281 | whatever the text, the parser yields only objects with ascending, escaped keys |
| `Json.Shrinks` | src/enclave/utils/Json.h:1498-1509 | reading a printed value back never adds characters, and takes none away only if the value is clean |
| `Json.EscapeReads` | src/enclave/utils/Json.h:89-121 | what json_escape writes, parse_string reads back |
| `Json.HexReads` | src/enclave/utils/Json.h:122-148 | hex text is read back as its bytes |
| `Json.NumberReads` | src/enclave/utils/Json.h:1577-1639 | a printed long is read back, up to the character that ends it |
| `Json.PlainKeyOk` | src/enclave/utils/Json.h:893-898 | a key without special characters survives if and only if it does not begin with the hash tag |
| `JsonText.JsonEscape` | src/enclave/utils/Json.h:89-121 | the loop computes the escaped text |
| `JsonText.DumpVector` | src/enclave/utils/Json.h:847-969 | the printer with its separator flags computes the printed text |
| `JsonText.ParseString` | src/enclave/utils/Json.h:1437-1511 | the offset-based parser agrees with the specification on every buffer |
| `JsonText.ParseNumber` | src/enclave/utils/Json.h:1577-1639 | reads signs and digits up to a character that ends a number and yields the long, an error, or an overrun, as specified |
| `JsonText.ParseArrayAt` | src/enclave/utils/Json.h:1322-1359 | gathers the items between brackets, with the offset behind the array, or reports the error where it was met |
| `JsonText.ParseObjectAt` | src/enclave/utils/Json.h:1235-1281 | gathers the members under the text of their keys, a later one replacing an earlier one, with the offset behind the object |
| `JsonText.ParseNext` | src/enclave/utils/Json.h:1728-1753 | dispatches on the first character behind the space; value, offset and status agree with the specification on every buffer |
| `JsonText.ParseBoolAt` | src/enclave/utils/Json.h:1658-1673 | recognises exactly the two words |
| `JsonText.ParseNullAt` | src/enclave/utils/Json.h:1688-1699 | recognises exactly the word |
| `JsonText.ConsumeWs` | src/enclave/utils/Json.h:1181-1185 | the offset moves behind the leading space |
| `JsonText.LoadBuffer` | src/enclave/utils/Json.h:1775-1780 | an empty buffer is null; otherwise the first value of the buffer |
| `Spelling.LoadIff` | src/enclave/utils/Json.h:1775-1780 | Load succeeds with a value and a rest if and only if the text is white space, a legal spelling of the value, and that rest |
| `Spelling.TreeReads` | src/enclave/utils/Json.h:1728-1753 | every legal spelling is read as what it means, and nothing behind it is consumed: any of the six white characters between tokens, all escapes, members in any order |
| `Spelling.Parsed` | src/enclave/utils/Json.h:1728-1753 | whatever is read with success is a legal spelling of what comes out |
| `Spelling.LayoutIsIgnored` | src/enclave/utils/Json.h:1181-1185 | a text that is the printed form of a clean array or object up to white space between its tokens is loaded as that value |
| `Spelling.PrintIsSpelling` | src/enclave/utils/Json.h:847-969 | the printed form of every clean value is a spelling of it without white space |
| `Spelling.CharReads` | src/enclave/utils/Json.h:1446-1497 | the characters that the escapes stand for; a unicode escape is kept as it is |
| `Spelling.Finishes` | src/enclave/utils/Json.h:1498-1509 | what a text behind the hash tag is taken for |
| `Spelling.HexValueIs` | src/enclave/utils/EUtils.cpp:131-140 | hex digits in either case, other characters counting as zero, and the lower-case digits that are printed |
| `Spelling.LastFieldDecides` | src/enclave/utils/Json.h:1235-1281 | an object has a member exactly if the last one with its key says so, and its keys ascend |
| `Fio.TagsAscend` | src/enclave/utils/Json.h:482-505 | later tags sort after earlier ones, whatever keys follow their dashes |
| `Fio.PrintsInOrder` | src/enclave/utils/Json.h:879-908 | after every orderly run of assignments the named members are shown in the order of first insertion, with their last values |
| `Fio.DistinctRun` | src/enclave/utils/Json.h:879-908 | any number of distinct keys, not empty and not of the form "digits-", are shown exactly as they were assigned |
| `Fio.ReassignShowsIff` | src/enclave/utils/Json.h:475-479 | a key that is there is assigned again as it should be if and only if it has no special characters |
| `Fio.NumberedKeyShowsTwo` | src/enclave/utils/Json.h:879-908 | a new key of the form of a name, with something behind its dash, shows two members, so the object is not the ordered one |
| `Fio.NewKeyShowsIff` | src/enclave/utils/Json.h:482-508 | a key that is new to list and map is shown last, as it should be, if and only if it is not of that form |
| `Fio.NameAsKeyShows` | src/enclave/utils/Json.h:475-479 | a key that is the name of a member puts the value under the text of that member's value, and shows one more member only if that text is a new name |
| `Fio.RunKeeps` | src/enclave/utils/Json.h:467-511 | the one map always holds the values of the ordered list under their names and the names under the keys |
| `Fio.NewName` | src/enclave/utils/Json.h:482-505 | the backward walk yields the tag after the last one |
| `Fio.FioObject.Assign` | src/enclave/utils/Json.h:467-511 | assignment through the two kinds of entries |
| `Fio.FioObject.Dump` | src/enclave/utils/Json.h:879-908 | the text has exactly the shown members |
| `Fio.BuildAndDump` | src/enclave/utils/Json.h:467-511 | a new object filled with distinct keys prints like an object in that order |
| `Scheduler.SafeAlways` | src/app/ecalls/EnclaveQueue.cpp:31-88 | over every interleaving each counter equals the threads at the matching program points, slots stay within 32 and 31, guards never fire, and the higher-priority count is the number of threads that outrank |
| `Scheduler.StepKeeps` | src/app/ecalls/EnclaveQueue.cpp:174-255 | every critical section keeps that |
| `Scheduler.AdmittedIff` | src/app/ecalls/EnclaveQueue.cpp:204-217 | a try succeeds exactly if a slot is free, not the reserved one for lower priorities, and at most one thread outranks it |
| `Scheduler.LowerPassesOne` | src/app/ecalls/EnclaveQueue.cpp:204-217 | for every two tasks, the lower one is admitted while the higher one waits |
| `Scheduler.AdmittedByName` | src/app/ecalls/EnclaveQueue.h:65-92 | over every run, which named tasks give way to which, and when each is admitted |
| `Scheduler.LookByName` | src/app/ecalls/EnclaveQueue.h:94-103 | over every run, a look turns away only Ecall_srd_increase, and exactly if the sealing task looked for is running |
| `Scheduler.GivesUpIff` | src/app/ecalls/EnclaveQueue.cpp:223-236 | over every run, a thread gives up if and only if it is of one of the two lowest tasks and has failed 30 times |
| `Scheduler.BlockerOvertakes` | src/app/ecalls/EnclaveQueue.cpp:192-217 | a reachable state with Ecall_srd_increase admitted and Ecall_seal_file inside |
| `Scheduler.UnbrokenLooksExcludeIff` | src/app/ecalls/EnclaveQueue.cpp:192-217 | after looks and try with nothing in between, a thread of a blocking task holds a slot if and only if one had just got it before |
| `Scheduler.EnteringBlockerIsMissed` | src/app/ecalls/EnclaveQueue.cpp:192-217 | a reachable state from which that happens: Ecall_seal_file and Ecall_srd_increase both with a slot |
| `Scheduler.BlockerRunsIff` | src/app/ecalls/EnclaveQueue.cpp:192-217 | in any run after a look that passes, the blocking task is in the running queue if and only if its threads have entered it more often than they have left it |
| `Scheduler.HigherIsCount` | src/app/ecalls/EnclaveQueue.cpp:142-158 | the sum over the priority counters is the number of waiting threads that outrank the task and are not ignored |
| `Scheduler.GuardsNeverFire` | src/app/ecalls/EnclaveQueue.cpp:44-88 | no counter is zero where it is decreased |
| `Scheduler.EnclaveQueue.IncreaseWaitingQueue` | src/app/ecalls/EnclaveQueue.cpp:31-38 | the caller enters the waiting queue of its priority and name; all counters still equal the threads |
| `Scheduler.EnclaveQueue.DecreaseWaitingQueue` | src/app/ecalls/EnclaveQueue.cpp:44-56 | the caller leaves the waiting queue, holding a slot or having given up; all counters still equal the threads |
| `Scheduler.EnclaveQueue.IncreaseRunningQueue` | src/app/ecalls/EnclaveQueue.cpp:62-71 | an admitted thread enters the running queue; all counters still equal the threads |
| `Scheduler.EnclaveQueue.DecreaseRunningQueue` | src/app/ecalls/EnclaveQueue.cpp:77-88 | a thread that has given its slot back leaves the running queue; all counters still equal the threads |
| `Scheduler.EnclaveQueue.CheckBlocker` | src/app/ecalls/EnclaveQueue.cpp:192-202 | a try is turned away exactly if a thread of the blocking task is in the running queue |
| `Scheduler.EnclaveQueue.HigherPrioWaiting` | src/app/ecalls/EnclaveQueue.cpp:142-158 | the loop yields the number of threads that outrank |
| `Scheduler.EnclaveQueue.TrySlot` | src/app/ecalls/EnclaveQueue.cpp:204-217 | the slot is taken under the three conditions |
| `Scheduler.EnclaveQueue.CountFailure` | src/app/ecalls/EnclaveQueue.cpp:223-236 | only tasks of priority above 1 give up, and exactly after 30 failed tries |
| `Scheduler.EnclaveQueue.FreeSlot` | src/app/ecalls/EnclaveQueue.cpp:248-252 | a thread gives its slot back; all counters still equal the threads |
| `SrdStore.Srd.DeleteSrdMeta` | src/enclave/workload/Workload.h:119-150 | erasing from the highest index to the lowest leaves exactly the other entries, and both counters right |
| `SrdStore.Srd.DealDeleted` | src/enclave/workload/Workload.cpp:903-925 | exactly the entries that carry a mark go |
| `SrdStore.Srd.Mark` | src/enclave/workload/Workload.cpp:862-869 | the entry at the index carries the mark from now on; beyond the list the mark waits for the entry that comes to stand there |
| `SrdStore.Srd.Increase` | src/enclave/srd/Srd.cpp:241-257 | an entry is appended, unmarked unless its index was marked in advance, and the counters follow |
| `SrdStore.Srd.SetSrdInfo` | src/enclave/workload/Workload.cpp:432-443 | total and per-disk counter change |
| `SrdStore.Srd.Decrease` | src/enclave/srd/Srd.cpp:271-298 | after the marked entries the last min(change, rest) go |
| `SrdStore.Srd.RemoveSpace` | src/enclave/srd/Srd.cpp:315-357 | marks exactly the last request[u] entries of every disk u; the index wraps if and only if a disk is asked for more than it has |
| `SrdStore.KeepIsSpared` | src/enclave/workload/Workload.h:129-142 | removing the buffered indexes removes exactly the marked entries |
| `SrdStore.KeepOneMore` | src/enclave/workload/Workload.h:129-142 | erasing below all positions removed so far removes one position more |
| `SrdStore.AppendedStays` | src/enclave/workload/Workload.cpp:903-925 | what was appended after marking stays and shifts nothing |
| `SrdStore.LatestAreAsked` | src/enclave/srd/Srd.cpp:344-356 | of each disk as many entries are marked as asked for, or all |
| `SrdStore.SecondRequestMarks` | src/enclave/srd/Srd.cpp:344-356 | a second request before the deletion marks exactly the entries between the two numbers, counted from the end of the disk |
| `SrdStore.FurtherAreExcess` | src/enclave/srd/Srd.cpp:344-356 | of each disk these are as many as the second request exceeds the first, as far as there are entries |
| `SrdStore.AskingAgainFreesNothing` | src/enclave/srd/Srd.cpp:344-356 | so a second request for no more marks no other entry |
| `SrdTurn.ShareOut` | src/app/process/Srd.cpp:137-149 | the loop ends, hands out min(change, capacity), and every disk gets the same level, the first ones one more, or all it has |
| `SrdTurn.Pass` | src/app/process/Srd.cpp:139-148 | one pass raises the level, and changes nothing only if all disks are full |
| `SrdTurn.Dispatch` | src/app/process/Srd.cpp:226-265 | exactly use[i] tasks are started for disk i |
| `SrdTurn.AskBack` | src/app/process/Srd.cpp:350-363 | every uuid is asked for the sum of what its disks fall short of the reserve, each no more than the counter of the uuid |
| `SrdTurn.ShortfallIsLeast` | src/app/process/Srd.cpp:350-363 | what a disk is asked for is the least number of its entries that restores the reserve, or all of them |
| `SrdTurn.AskedIsThere` | src/app/process/Srd.cpp:350-363 | with counters that are up to date and different uuids no disk is asked for more than it has |
| `SrdTurn.SharedUuidAsksTooMuch` | src/app/process/Srd.cpp:350-363 | two paths with one uuid, both short by all it has, are asked for twice as much |
| `SrdCap.CapAlways` | src/enclave/srd/Srd.cpp:397-434 | entries, queued task and increases in flight never exceed 512000 + 64 |
| `SrdCap.LimitIsPassed` | src/enclave/srd/Srd.cpp:397-434 | a run reaches 512064 entries |
| `SrdCap.QuietKeepsLimit` | src/enclave/srd/Srd.cpp:57-92 | without additions while a turn is in flight, 512000 itself is kept |
| `SrdCap.ChangeKeepsLimitIff` | src/enclave/srd/Srd.cpp:397-434 | when a single change keeps to 512000 |
| `SrdCap.StaysWithinIff` | src/enclave/srd/Srd.cpp:397-434 | a run stays within 512000 all the way if and only if every change in it queues no increase, meets no turn in flight, or leaves room for the turn |
| `SrdCap.SrdTask.ChangeSrdTask` | src/enclave/srd/Srd.cpp:397-434 | what is really added, and when the limit is reported |
| `SrdCap.SrdTask.TakeTurn` | src/enclave/srd/Srd.cpp:57-80 | a turn takes at most 64 or gives back at most 5000 |
| `Transfer.ExactlyOnce` | src/app/utils/Common.cpp:490-519 | under every interleaving of sessions, keys drawn again included, in which each starts while its key is free: the handler runs once per finished session, on exactly its bytes, never otherwise, and nothing is overrun |
| `Transfer.UnsafeStartLoses` | src/enclave/Enclave.cpp:411-428 | a start under a held key, or over a shorter buffer left behind, loses a session whatever comes afterwards |
| `Transfer.DoneIsFreed` | src/enclave/Enclave.cpp:445-449 | when a session is done its buffer is gone |
| `Transfer.StepKeeps` | src/enclave/Enclave.cpp:399-451 | every safe step keeps what the pool holds of each session |
| `Transfer.SharedKeyMixes` | src/enclave/Enclave.cpp:411-428 | two equally long transfers under one key: the handler gets the first piece of one and the rest of the other |
| `Transfer.LongerOverruns` | src/enclave/Enclave.cpp:428 | a piece is written beyond the buffer under its key exactly if that is too short |
| `Transfer.Enclave.SafeStore2` | src/enclave/Enclave.cpp:399-451 | one piece, with all exits, the status of the handler and the overruns |
| `Transfer.Enclave.SendAll` | src/app/utils/Common.cpp:490-519 | an undisturbed transfer delivers the bytes once, returns the status of the handler and leaves the pool as it was |
| `Gate.SlotsApart` | src/enclave/report/Report.cpp:60-70 | heights that pass the check are at least 1200 apart |
| `Gate.ReportIsProved` | src/enclave/report/Report.cpp:72-86 | every report rests on a srd proof and a file proof since the last attempt that passed |
| `Gate.ProofsBetween` | src/enclave/workload/Workload.cpp:795-855 | both proofs lie between two attempts that pass, the later of which reports |
| `Gate.VerdictFromTrace` | src/enclave/report/Report.cpp:60-86 | the verdict on an attempt from the events before it alone: how many attempts passed, the last one's height, what was last said about the files, and the proofs since |
| `Gate.UpgradeHeight` | src/enclave/identity/Identity.cpp:848-863 | the height is congruent, lies one slot or more ahead and below the block, and passes the check unless the block is exactly one slot ahead |
| `Gate.ReportGate.Check` | src/enclave/report/Report.cpp:60-86 | the verdict and the reset of the state on every path behind the height check |
| `Gate.ReportGate.AddValidatedSrdProof` | src/enclave/workload/Workload.cpp:795-807 | the saturating counter |
| `Gate.ReportGate.AddValidatedFileProof` | src/enclave/workload/Workload.cpp:812-824 | the saturating counter |
| `Gate.ReportGate.SetReportFileFlag` | src/enclave/workload/Workload.cpp:398-403 | the flag as an event |
| `Upgrade.Handover` | src/enclave/identity/Identity.cpp:983-1084 | the same srd list and the same files without the pending ones; the signed message again and acceptance, if and only if the old table is empty or has a file that is not pending (or hashing nothing gives zeros) |
| `Upgrade.SameFileRootIff` | src/enclave/workload/Workload.cpp:259-278 | when exporter and importer compute the same root |
| `Upgrade.MessageLayout` | src/enclave/identity/Identity.cpp:915-926 | where key, height, block hash and roots stand in the signed message |
| `Upgrade.MessageBindsIff` | src/enclave/identity/Identity.cpp:1030-1040 | two messages are equal if and only if key, roots and the joined text of height and block hash are |
| `Upgrade.HashesLayout` | src/enclave/workload/Workload.cpp:117-139 | the hashed bytes are 32 for each file, in order |
| `Upgrade.StatusDecides` | src/enclave/workload/Workload.cpp:128 | the first character of the status decides whether a file is pending |
| `Upgrade.ExportReads` | src/enclave/identity/Identity.cpp:932-960 | the exported text is read back as the exported object |
| `Upgrade.ExportReadsIff` | src/enclave/identity/Identity.cpp:932-960 | the exported text is read back as the exported object if and only if the files handed over can be printed and read back |
| `Upgrade.EntryCleanIff` | src/enclave/storage/Storage.cpp:374-392 | an entry of the table can be if and only if its CID does not begin with the hash tag |
| `Upgrade.SrdRestored` | src/enclave/workload/Workload.cpp:314-326 | the hex texts are restored as the srd list |
| `Upgrade.DetailRestored` | src/enclave/workload/Workload.cpp:324-330 | the restored per-disk counters agree with the list |
| `Upgrade.ComputeFileRoot` | src/enclave/workload/Workload.cpp:117-139 | the loop hashes the files that are not pending, in order |
| `Upgrade.ComputeSrdRoot` | src/enclave/workload/Workload.cpp:82-109 | the loop hashes the concatenated srd entries |
| `Upgrade.Workload.RestoreSrd` | src/enclave/workload/Workload.cpp:301-337 | list and counters, or a clean state on the first bad text |
| `Upgrade.Workload.RestoreFile` | src/enclave/workload/Workload.cpp:359-386 | the files that are not pending, in order |
| `Upgrade.RestoreFresh` | src/enclave/workload/Workload.cpp:301-386 | a fresh worker ends up with the lists of the old one and counters that agree with them |

## Left out

- SGX sealing, SHA-256, ECDSA, attestation and X.509: hashing and signing are parameters; injectivity and soundness are assumed only where a lemma requires them.
- HTTP, websocket, IPFS and chain clients, LevelDB, the file system, logging and configuration: input and output, which appear as parameters (`stored`, `fetch`, `save`, `memory`, `capacity`).
- Concurrency inside one call: an ecall on the file table is one step, except that the critical sections of storage_seal_file, the late one of a fetched block among them, and in Ending those of storage_seal_file_end are steps of their own; the scheduler is modelled section by section; change_srd_task is one step; srd bookkeeping is sequential.
- Agreement.RunAgrees: a successful upload is taken for acceptance by the chain, chain heights are positive, validation results apply to sealed files, and recover_illegal_file and restarts do not occur.
- Scheduler: the retry loop of try_get_enclave appears as the steps of a thread, not as one method, since other threads run in between.
- Links.GetHashsFromBlock: a shift by more than 31 bits is undefined in C++, so its value is a parameter; signed overflow is modelled as wrap-around.
- JsonText.ParseNumber: a floating-point number ends in an overrun, since its value is not modelled.
- Json.RoundTripIffClean: floating-point numbers, raw buffers and the pretty printer are not modelled; a bare number is excluded because its parser needs a character behind it.
- Spelling.LoadIff: texts with floating-point numbers are outside it, and so is what a failed parse leaves behind.
- Fio.PrintsInOrder: values are plain JSON values, so an insertion-ordered object inside another one is not covered; it is about runs without keys of the form of a name and without reassigned special keys, whose effect Fio.NewKeyShowsIff, Fio.NameAsKeyShows and Fio.ReassignShowsIff state.
- SrdStore.Srd.RemoveSpace: requests are not negative, as the caller sends them.
- Transfer.UnsafeStartLoses: the first byte of each session of the key is not zero and its own, since equal bytes could hide the loss. The direction from the enclave outwards uses the same protocol.
- Gate.SlotsApart: one lifetime of the enclave; the height stored for a restart is read back through a conversion that yields 0.
- Upgrade.Handover: entering the network and the report of the new version come after it; the restore starts from a worker without srd and files; a file whose CID begins with the hash tag is excluded, as Upgrade.ExportReadsIff shows it must be.
- Validator rounds (choice of samples, tokens, timeouts): only their effect on the file table and on the srd marks is modelled.
- 64-bit counters do not wrap around in the model.
- The statistics of pending and valid sizes (set_file_spec), the number of blocks of a file, the files root in the report, metadata sealing and the main loop.
