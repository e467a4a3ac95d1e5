# platform-configure, modelled and proved in Dafny

The project models three parts of the repository and proves what they promise:

1. **Snapshots and incremental backups** (`go/zfs-snapshots`). `TakeSnapshot` is a small
   transaction over two stores, the ZFS snapshots and a directory of dumps. The stores are
   classes (`Stores.dfy`) whose operations fail whenever the environment lets them; the
   function and its helpers are methods with the loops of the source (`ZfsSnapshots.dfy`),
   proved against one relation that says what a run may leave behind for every way it can
   end (`Runs.dfy`). On top of that relation: what rotation keeps (`Rotation.dfy`), what one
   run guarantees (`Outcomes.dfy`), that every stream continues the chain of its dataset and
   label in every history of runs (`Chains.dfy`), and exactly when replaying the dump directory
   rebuilds the newest snapshot (`Archive.dfy`). With everything working, it is known exactly
   which calls succeed; where a promise fails there is a call all of whose runs succeed and
   break it (`Successes.dfy`). Names and timestamps
   are strings with the order of `sort.Strings` (`Text.dfy`, `WallClock.dfy`, `Names.dfy`).
2. **Static network configuration** (`go/netconf`). Masks and addresses are octets with a
   bitwise "and", and the gateway test becomes a statement about blocks of 32-bit numbers
   (`IPv4.dfy`, `Addresses.dfy`; section 3.1 of RFC 4632). The unit file is printed and read
   back (`UnitFile.dfy`), the list of name servers too (`NameServers.dfy`), and the commands
   run over a store of files (`Netconf.dfy`) whose paths are joined and cleaned (`Paths.dfy`).
3. **Release images** (`prep.sh`): the map of images and tags rebuilt through the shell's
   word splitting, the pull loop, and the removal of old images (`Release.dfy`).

Failures are not a script of outcomes: an environment says which kinds of operation are
known to work, and of which snapshots the deletion and of which files the renaming or removal
may be refused; whatever is not known to work may fail or work, each time anew. A history is any sequence
of runs that satisfy the relation, with any mixture of requests, results and environments.

## Where the code and its documentation differ

- The comment above `TakeSnapshot` says that keep is the number of versions of "this
  snapshot". The code pools the snapshots of all datasets of the call, under all labels, and
  keeps the greatest names of the pool. `Rotation.PerDatasetExactly` says exactly when the
  promise per dataset holds; `Successes.RetentionBreaks` is a call whose runs succeed and break it.
- A negative `keep`, which the flag accepts, makes `cleanup` slice beyond the snapshots it has.
  Without old snapshots the program panics after the work is done. With some, it depends on the
  spare capacity of the slice: a panic, or every old snapshot of the call goes
  (`Rotation.NegativeKeep`).
- The timestamp has seconds, unlike the format in that comment.
- `strings.Replace(name, "/", "-", -1)` is not injective: a call for `a/b` and `a-b` reports
  success and loses a dump. `Outcomes.EveryDumpKeptExactly` gives the exact condition, and
  `Successes.SlashAndDash` the call.
- After the clock was set back behind two snapshots of a group, a run succeeds and sends the
  difference between these instead of its own snapshot (`Successes.ClockSetBack`); behind one,
  no sending run succeeds, since ZFS refuses a difference that leads back in time
  (`Successes.ClockSetBackBehindOne`). `Chains.OwnSnapshotExactly` and
  `Outcomes.RefusedExactly` give the exact conditions.
- Leaving out `-send` once breaks the series of dumps until a run finds no snapshot of the
  group: `Archive.DirectoryRestores` gives the exact condition, `Archive.UnsentRun` the failure.
- In `setStaticConfig` the message about an invalid gateway is reached only for an IPv6
  address; for an IPv4 address such a gateway already fails the containment test. After a
  failed restart of networkd the command returns an error, although the file is written and
  the text says success.
- A mask with a one after a zero is accepted and printed in hexadecimal, so the Address line
  means something else or nothing: `Addresses.AddressLineExactly` and `Addresses.HexMaskRead`.
- The guard for custom configurations accepts every path that has the directory's name anywhere
  in it, so a file such as `/tmp/etc/systemd/network/x` is removed if networkd reports it:
  `Netconf.StaticInsideExactly`, `Netconf.ResetInsideExactly`, `Netconf.ForeignFileIsRemoved`.
- In `prep.sh` the pull loop makes one attempt more than its limit and discards its success.

## Model

| member | source | states |
|---|---|---|
| `WallClock.FormatOrder` | go/zfs-snapshots/zfs_snapshots.go:17 | comparing printed timestamps as strings is comparing times, for all wall clocks with years 0 to 9999, and no two times print alike |
| `Fields.FormatReads` | go/zfs-snapshots/zfs_snapshots.go:17 | split at the dashes, a printed time gives six numbers, four digits for the year and two for the others, which are year, month, day, hour, minute and second |
| `Text.SortUnique` | go/zfs-snapshots/zfs_snapshots.go:167 | a multiset of strings has one sorted arrangement, so the algorithm behind `sort.Strings` does not matter |
| `Text.LeExactly` | go/zfs-snapshots/zfs_snapshots.go:167 | the order of strings: a prefix comes first, otherwise the first difference decides |
| `Names.GroupMembership` | go/zfs-snapshots/zfs_snapshots.go:142-145 | a snapshot taken under label k has the prefix of the dash-free label l exactly if k is l or extends l with a dash |
| `Names.GroupOrder` | go/zfs-snapshots/zfs_snapshots.go:149 | within one dataset and label, names sort by time |
| `Names.FreshnessRefusal` | go/zfs-snapshots/zfs_snapshots.go:50-54 | the suffix test refuses exactly when label and time agree and the other dataset's path ends in this name |
| `Names.DumpFileDecodes` | go/zfs-snapshots/zfs_snapshots.go:91-93 | the dump file name determines the dash form of the dataset, the label and the time, and nothing more |
| `Names.DumpPathTime` | go/zfs-snapshots/zfs_snapshots.go:91-93 | dumps of different times never share a path, whatever directories, datasets and labels |
| `Names.TmpIsNoDump` | go/zfs-snapshots/zfs_snapshots.go:94 | no dump path is ever the path of a temporary file |
| `Names.DumpPathDirectory` | go/zfs-snapshots/zfs_snapshots.go:91-93 | dumps in different clean directories never share a path, for labels without slashes |
| `Paths.NamesSpelled` | go/zfs-snapshots/zfs_snapshots.go:46-48 | how snapshot, dump and temporary file are named |
| `Paths.InDirIsJoin` | go/zfs-snapshots/zfs_snapshots.go:93 | for a clean rooted directory and a plain file, the path of a dump is what `path.Join` gives |
| `Paths.InDirParts` | go/zfs-snapshots/zfs_snapshots.go:93 | for every clean directory, rooted or not: the parts of the path are those of the directory, and the file |
| `Streams.PatchDiff` | go/zfs-snapshots/go_zfs.go:84-93 | applying an incremental stream to the contents it starts from gives the contents it leads to |
| `Streams.DiffIsLeast` | go/zfs-snapshots/go_zfs.go:84-93 | an incremental stream carries only what changed: whatever leads to the same contents removes and writes at least this |
| `Stores.Driver.Snapshots` | go/zfs-snapshots/go_zfs.go:34-47 | a listing shows existing snapshots once each, and all that the filter names |
| `Stores.Driver.CreateSnapshots` | go/zfs-snapshots/go_zfs.go:50-66 | success adds one snapshot with the live contents for every name, all in one transaction; failure may have added a part of the batch and loses nothing; distinct, existing, untaken names succeed if creation works |
| `Stores.Driver.DeleteSnapshot` | go/zfs-snapshots/go_zfs.go:69-80 | deletes exactly the named snapshot or nothing, and never a live dataset |
| `Stores.Driver.SendSnapshots` | go/zfs-snapshots/go_zfs.go:84-93 | success writes the full stream for an empty `from` and the difference otherwise; it needs both snapshots and an earlier source, and nothing more if sending works |
| `ZfsSnapshots.Newest` | go/zfs-snapshots/zfs_snapshots.go:140-160 | for every duplicate-free listing: the two greatest members of the group, an empty `from` for a single member, and an error exactly for none |
| `ZfsSnapshots.SortedGroup` | go/zfs-snapshots/zfs_snapshots.go:149-158 | the last two of the sorted group are its greatest members, with no member between them |
| `Chains.NewestIgnoresListing` | go/zfs-snapshots/zfs_snapshots.go:103-113 | whatever else the driver lists and in whatever order, the answer is the same and is about all snapshots |
| `ZfsSnapshots.DeleteAll` | go/zfs-snapshots/zfs_snapshots.go:64-66 | the loop removes only listed names, and leaves none whose own deletion works, whatever happens to the others |
| `ZfsSnapshots.Cleanup` | go/zfs-snapshots/zfs_snapshots.go:162-173 | removes only the smallest n - keep + 1 of the n pooled names, and each of these whose own deletion works; for keep below 1 it panics with nothing removed, certainly if the pool is empty, or does so for all of them |
| `ZfsSnapshots.RemoveAll` | go/zfs-snapshots/zfs_snapshots.go:124-127 | in every map order: touches only the temporary files, and leaves none whose own removal works |
| `ZfsSnapshots.RenameAll` | go/zfs-snapshots/zfs_snapshots.go:131-135 | in every map order: each file is moved whole or stays, it stays only if its own rename may be refused, nothing else changes, and the error tells whether all were moved |
| `ZfsSnapshots.RemovingIgnoresOrder` | go/zfs-snapshots/zfs_snapshots.go:124-127 | with working removals every map order leaves the same directory |
| `ZfsSnapshots.RenamingIgnoresOrder` | go/zfs-snapshots/zfs_snapshots.go:131-135 | if every rename worked, every map order leaves the same directory |
| `ZfsSnapshots.WriteOne` | go/zfs-snapshots/zfs_snapshots.go:96-119 | the temporary file of one dataset ends up holding its stream, or the attempt failed and no other file changed |
| `ZfsSnapshots.DumpOne` | go/zfs-snapshots/zfs_snapshots.go:90-120 | one pass of the loop keeps the invariant between the files, the map of temporary files and the streams sent |
| `ZfsSnapshots.SendSnapshots` | go/zfs-snapshots/zfs_snapshots.go:87-138 | success leaves every dump under its final name and no temporary file; a failure before the renames leaves no new dump and removes the temporary files it made; a dump stays temporary only if its own rename may be refused; nothing else changes |
| `ZfsSnapshots.Prepare` | go/zfs-snapshots/zfs_snapshots.go:47-60 | the nested loops refuse exactly if an existing snapshot ends in a new name, and otherwise pool the old snapshots of the listed datasets |
| `ZfsSnapshots.Commit` | go/zfs-snapshots/zfs_snapshots.go:62-84 | every failure after creation removes each new snapshot whose own deletion works and never loses an old one; success rotates exactly the smallest of the pool, with the same exception |
| `ZfsSnapshots.TakeSnapshot` | go/zfs-snapshots/zfs_snapshots.go:40-85 | every call, with every combination of failures, is a run of the relation that the histories are made of |
| `Runs.FreshIsNew` | go/zfs-snapshots/zfs_snapshots.go:52-54 | a run that passes the suffix test takes no name that exists |
| `Runs.ListedGroup` | go/zfs-snapshots/zfs_snapshots.go:103-108 | a listing for the dataset shows its whole group and nothing more of it |
| `Rotation.PoolIsExact` | go/zfs-snapshots/zfs_snapshots.go:49-60 | for distinct names without @, each old snapshot of a listed dataset is pooled once and nothing else is |
| `Rotation.DoomedFirst` | go/zfs-snapshots/zfs_snapshots.go:167-168 | what rotation removes is closed downwards in the order of names |
| `Rotation.DoomedIgnoresOrder` | go/zfs-snapshots/zfs_snapshots.go:49-60 | two listings that differ only in their order make rotation remove the same snapshots |
| `Rotation.PermutedPools` | go/zfs-snapshots/zfs_snapshots.go:49-60 | the loops pool the same snapshots, equally often, for every order of the listing |
| `Rotation.RetentionCount` | go/zfs-snapshots/zfs_snapshots.go:80-82 | after a successful run with keep >= 1, none of whose old snapshots is held, the listed datasets hold the old snapshots, or keep - 1 of them if there were at least keep, plus one per name |
| `Rotation.OldestFirst` | go/zfs-snapshots/zfs_snapshots.go:162-173 | if a snapshot of a listed dataset survives, every greater old snapshot survives, so each group loses its oldest first |
| `Rotation.OthersUntouched` | go/zfs-snapshots/zfs_snapshots.go:40-85 | in every run, snapshots of other datasets keep name and contents; after every run that completes, all new snapshots are there with the live contents |
| `Rotation.RotationGoesOn` | go/zfs-snapshots/zfs_snapshots.go:168-172 | after a successful rotation a doomed snapshot is left only if its own deletion may be refused, and every other one is there |
| `Rotation.RollbackGoesOn` | go/zfs-snapshots/zfs_snapshots.go:63-77 | after a failed run a new snapshot is left only if its own deletion may be refused |
| `Rotation.NegativeKeep` | go/zfs-snapshots/zfs_snapshots.go:80-82 | a successful run with a negative keep, none of whose old snapshots is held, had old snapshots and leaves none of them, all others, and the new ones |
| `Rotation.PerDatasetExactly` | go/zfs-snapshots/zfs_snapshots.go:36-40 | the documented retention per dataset holds if and only if keep is 1, the pool is smaller than keep, or all of it belongs to one dataset |
| `Outcomes.SucceedsExactly` | go/zfs-snapshots/zfs_snapshots.go:40-85 | with everything working, a call for distinct datasets completes exactly if they exist, the names are fresh and, if it sends, no stream is refused; otherwise it changes no snapshot |
| `Outcomes.RefusedExactly` | go/zfs-snapshots/zfs_snapshots.go:155-157 | a stream is refused exactly if one member of the group is ahead of the new one, or several are and the newest two by name were made the other way round |
| `Outcomes.FailureLeavesNothing` | go/zfs-snapshots/zfs_snapshots.go:62-78 | if its own snapshots can be deleted and its own temporary files renamed and removed, a failed run leaves the snapshots as they were and no new or changed file |
| `Outcomes.EveryDumpKeptExactly` | go/zfs-snapshots/zfs_snapshots.go:91-101 | after success each dataset's own stream is in its dump file if and only if the dash forms of different names differ |
| `Successes.SuccessIsCertain` | go/zfs-snapshots/zfs_snapshots.go:40-85 | from every state, a call for fresh, existing, distinct datasets with keep >= 0 and no refused stream has a run, and all its runs succeed |
| `Successes.RetentionBreaks` | go/zfs-snapshots/zfs_snapshots.go:36-40 | a call for two datasets with keep 2 all of whose runs succeed and leave one of them without its only old snapshot |
| `Successes.DumpIsLost` | go/zfs-snapshots/zfs_snapshots.go:91-101 | if two datasets of such a call have one dash form, all its runs succeed and a dump is missing afterwards |
| `Successes.SlashAndDash` | go/zfs-snapshots/zfs_snapshots.go:91-101 | the call for `a/b` and `a-b`: all its runs succeed and lose a dump |
| `Successes.ClockSetBack` | go/zfs-snapshots/zfs_snapshots.go:155-157 | for every dataset and label, after the clock was set back behind two snapshots: all runs succeed and send exactly the difference between these two |
| `Successes.ClockSetBackBehindOne` | go/zfs-snapshots/zfs_snapshots.go:155-157 | after the clock was set back behind exactly one snapshot of the group: no sending run succeeds, and all are rolled back |
| `Chains.FailureRollsBack` | go/zfs-snapshots/zfs_snapshots.go:63-77 | corollary of `ZfsSnapshots.Commit`: no failure loses or changes an old snapshot, and none leaves a new one whose own deletion works |
| `Chains.RunInGroup` | go/zfs-snapshots/zfs_snapshots.go:40-85 | seen from one dataset and label, a failure changes nothing, and a success removes smallest members only and adds the new one |
| `Chains.RunKeepsContents` | go/zfs-snapshots/zfs_snapshots.go:40-85 | a run changes the contents of no snapshot, and new snapshots have the live contents |
| `Chains.RunSends` | go/zfs-snapshots/zfs_snapshots.go:109-118 | each stream leads to this run's snapshot and starts at the newest earlier member of the group, or is full exactly if there is none |
| `Chains.OwnSnapshotExactly` | go/zfs-snapshots/zfs_snapshots.go:155-157 | a run sends its own snapshot if and only if no earlier member of the group has a greater name |
| `Chains.StartsAtExactly` | go/zfs-snapshots/zfs_snapshots.go:155-157 | an incremental stream starts at a given snapshot if and only if this is the newest earlier member |
| `Chains.NewestIsLastDone` | go/zfs-snapshots/zfs_snapshots.go:40-85 | in every history, from a new system or one in use, the newest snapshot of a group is that of its last successful run, or the group is empty |
| `Chains.ChainSafety` | go/zfs-snapshots/zfs_snapshots.go:87-160 | after every history, each stream of the next run leads to its own snapshot and starts at that of the last successful run of the group, or is full exactly if no snapshot is left; never a stale or rolled-back one |
| `Archive.RunInArchive` | go/zfs-snapshots/zfs_snapshots.go:87-138 | a run writes the group's dump of its own time exactly if it succeeds and sends into the directory, and leaves every other dump of the group there alone |
| `Archive.DirectoryIsLedger` | go/zfs-snapshots/zfs_snapshots.go:87-138 | after every history, also with runs that do not send or send elsewhere, the directory holds exactly the dumps of the start and of the group's successful runs that sent there, unchanged |
| `Archive.LedgerReplays` | go/zfs-snapshots/zfs_snapshots.go:87-160 | replaying these dumps ends at the last successful run with its contents if and only if, going back, every successful run sent there until one that found no snapshot of the group, or until a replayable start |
| `Archive.RunReplays` | go/zfs-snapshots/zfs_snapshots.go:109-118 | a replica follows the group after one more dump if and only if it followed before or there was no snapshot, for which the dump is full |
| `Archive.DumpOrder` | go/zfs-snapshots/zfs_snapshots.go:91-93 | dump files of a group sort by time |
| `Archive.DirectoryRestores` | go/zfs-snapshots/zfs_snapshots.go:87-160 | after every history, applying the group's dump files in the order of their names rebuilds the contents of the last successful run's snapshot, which is the newest one left, if and only if the history is sound in this sense |
| `Archive.NewSystemRestores` | go/zfs-snapshots/zfs_snapshots.go:87-160 | from a new system, if every successful run of the group sends into the directory, the sorted dump files always rebuild the last one |
| `Archive.HistoryBeginsAgain` | go/zfs-snapshots/zfs_snapshots.go:87-160 | where a history ends the hypotheses about a start hold again, so the theorems apply to a system in use from any point on |
| `Archive.UnsentRun` | go/zfs-snapshots/zfs_snapshots.go:70-78 | after a successful run that does not send, or sends elsewhere, its snapshot is there and the newest of the group, and applying the sorted dumps never ends at it |
| `Addresses.ParseMap` | go/netconf/netconf.go:189-203 | fills a fresh array of four octets, succeeds exactly for four integers, and stores each modulo 256 |
| `Addresses.MaskValueExactly` | go/netconf/netconf.go:189-203 | for every text: it is read as a mask if and only if it is four 64-bit integers, each with an optional sign, joined by dots |
| `Fields.AtoiExactly` | go/netconf/netconf.go:196-199 | for every text: it is read as a number if and only if it is an optional sign and a non-empty run of digits without overflow |
| `Addresses.MaskOctetsCut` | go/netconf/netconf.go:195-201 | for any four 64-bit integers written in decimal, with or without a sign, each octet is the integer modulo 256 |
| `Addresses.MaskRoundTrip` | go/netconf/netconf.go:189-203 | every mask reads back from its dotted form |
| `Addresses.MaskLengthExactly` | go/netconf/netconf.go:227-228 | a mask has prefix length p if and only if it is p ones followed by zeros |
| `Addresses.CidrRoundTrip` | go/netconf/netconf.go:218-228 | for every prefix length 0 to 32 and every address: dotted mask to prefix notation and back is the identity |
| `Addresses.AddressLineExactly` | go/netconf/netconf.go:227-228 | for every address and mask: the printed network reads back as this address and mask if and only if the mask is contiguous |
| `Addresses.HexMaskRead` | go/netconf/netconf.go:227-228 | for every mask that is not: the text reads as a prefix length exactly if the first three octets are 0 and the last prints as two decimal digits of at most 32, and then as that number |
| `Addresses.HexDigitExactly` | go/netconf/netconf.go:228 | the digits of a mask without prefix length are those of the hexadecimal system, in lower case |
| `Fields.ItoaStart` | go/netconf/netconf.go:228 | printed prefix lengths and octets have no leading zeros |
| `Addresses.HexMaskMisread` | go/netconf/netconf.go:228 | the mask 0.0.0.1 reads as prefix length 1 |
| `Addresses.QuadRoundTrip` | go/netconf/netconf.go:236 | every printed IPv4 address parses back |
| `Addresses.ParseIPv4Exactly` | go/netconf/netconf.go:223-229 | for every text: it is read as an IPv4 address if and only if it is four numbers of digits, each at most 255, joined by dots |
| `Addresses.ParseIPExactly` | go/netconf/netconf.go:223-240 | a text with dots and no colon can only be an IPv4 address, one with colons and no dot only an IPv6 address, one without both is none |
| `Addresses.ContainsMeaning` | go/netconf/netconf.go:230-235 | the gateway test passes exactly for two IPv4 addresses that agree on every mask bit, or for an IPv6 address with no gateway at all |
| `IPv4.AndIsBitwise` | go/netconf/netconf.go:227-230 | the arithmetic "and" of the model is the bitwise one |
| `IPv4.SameBlock` | go/netconf/netconf.go:227-230 | agreeing under p leading ones means lying in the same block of 2 to the power of the remaining bits, for strings of octets of any length |
| `Addresses.ContainsIsBlock` | go/netconf/netconf.go:229-232 | for a contiguous mask, the gateway is accepted if and only if it lies in the block of 2^(32-p) addresses of the interface's address |
| `UnitFile.UnitRoundTrip` | go/netconf/netconf.go:180-187 | reading the rendered file gives the hardware address, address, gateway and all name servers in order, each in its section, and nothing else |
| `NameServers.FieldsAreTrimmedParts` | go/netconf/netconf.go:238-239 | for every argument: the fields are the parts between the commas, each trimmed; trimming the whole list first changes nothing |
| `NameServers.TrimExactly` | go/netconf/netconf.go:238-239 | trimming takes the blanks at both ends and nothing else |
| `NameServers.AcceptedExactly` | go/netconf/netconf.go:238-243 | for every argument: it is accepted if and only if each part between its commas, trimmed, is an address |
| `NameServers.NameServersInOrder` | go/netconf/netconf.go:238-246 | for every list of IPv4 and IPv6 addresses, with blanks anywhere around them, the name servers are these addresses in order |
| `Netconf.ParseDNS` | go/netconf/netconf.go:238-245 | the loop succeeds exactly if every field is an address, and yields the printed addresses in order |
| `Netconf.Validate` | go/netconf/netconf.go:205-246 | passes exactly for acceptable arguments: IPv4 address and gateway that agree under the mask, known interface, valid name servers; the file content is determined then; otherwise the error is that of the first check that fails |
| `Netconf.SetStaticConfig` | go/netconf/netconf.go:205-279 | every error before the file stage leaves all files unchanged; success replaces exactly the interface's old custom file by the new one, under the cleaned path; a failed write has already lost the old file |
| `Netconf.ConfigurationReads` | go/netconf/netconf.go:228-257 | a file rendered for an address, a contiguous mask and a gateway that agrees under it reads back as that address with that prefix length and a gateway in its block |
| `Netconf.WrittenConfiguration` | go/netconf/netconf.go:205-257 | the same for whatever the validation accepts: the texts in the file mean the addresses of the arguments |
| `NameServers.WrittenNameServers` | go/netconf/netconf.go:205-257 | from arguments to file and back: the file of an accepted configuration with a contiguous mask reads as the address with its prefix length, a gateway in its block, and the addresses of the dns argument in order |
| `Netconf.EnableDHCP` | go/netconf/netconf.go:138-171 | removes exactly the custom file in use, unless it looks absent; nothing at all on an error, which means a refused interface or a file whose removal may be refused |
| `Netconf.ResetToDHCP` | go/netconf/netconf.go:281-297 | leaves no custom file of an interface whose turn came, unless it looks absent, and touches nothing else; all turns come, or they end with the interface at fault |
| `Netconf.ResetIdempotent` | go/netconf/netconf.go:281-297 | if no custom file of the list looks absent, a successful reset is exact, and a second one changes nothing, whatever is reported then as long as no new custom file is |
| `Netconf.ResetUndoesStatic` | go/netconf/netconf.go:138-171 | a reset after a static configuration restores the files without the replaced custom file if and only if the written file was not there before, or was the one replaced; in every case it leaves the others alone |
| `Netconf.TargetOfName` | go/netconf/netconf.go:271 | for an interface name without slashes, the cleaned path is the file of that name in the directory |
| `Paths.KeptIsPlain` | go/netconf/netconf.go:271 | cleaning leaves no empty part and no dots |
| `Netconf.TargetAbove` | go/netconf/netconf.go:271 | about the path alone: two dots and a slash would move the file out of the directory; the lookup of the interface refuses such a name first |
| `Netconf.StaticInsideExactly` | go/netconf/netconf.go:258-274 | a static configuration with its target in the directory touches a file outside if and only if it changes anything and the reported custom file is outside |
| `Netconf.ResetInsideExactly` | go/netconf/netconf.go:150-160 | a reset touches a file outside if and only if such a file was reported, for an interface whose turn came, and existed |
| `Netconf.ForeignFileIsRemoved` | go/netconf/netconf.go:150-160 | a reset that removes a file under /tmp |
| `Netconf.HistoryTouches` | go/netconf/netconf.go:258-271 | no history of calls touches a file that is neither a reported custom file nor the target of a call |
| `Netconf.HistoryOnlyCustom` | go/netconf/netconf.go:258-271 | so no history touches a file outside the directory if its interface names have no slashes and the reported custom files are inside |
| `Release.MaxByBuild` | prep.sh:60-67 | the last of the releases with the greatest build number |
| `Release.EntryExactly` | prep.sh:69-73 | an entry reads back if and only if neither name nor tag has a colon |
| `Release.ReadEntryParts` | prep.sh:69-73 | for every word: name and tag are the first two of the parts between its colons |
| `Release.WordsExactly` | prep.sh:69-73 | word splitting in full: words are the non-empty parts between blanks, in order |
| `Release.BuildTags` | prep.sh:69-73 | the loop over the words fails exactly for an entry without a name |
| `Release.TagsRebuilt` | prep.sh:60-73 | printing the map, splitting it into words and splitting these at the colon gives back the map |
| `Release.FetchReleaseData` | prep.sh:55-74 | number, codename, address of the notes and the image map all come from the same newest release; for every map, safe or not, the result is that of the loop over the words of its lines; no release at all ends the script |
| `Release.PullWithRetries` | prep.sh:171-182 | an image is accepted exactly if one of the first n attempts works; otherwise n + 1 attempts were made |
| `Release.DownloadAndVerify` | prep.sh:165-197 | an image passes exactly if it is pulled within the limit and, under OverlayFS, every layer of its history is in both places |
| `Release.StateNameExactly` | prep.sh:201-204 | the id of an image is recorded under its name without the registry prefix, and under no other name |
| `Release.PullAllImages` | prep.sh:76-87 | in every map order: stops at the first image that does not arrive, returns exactly if all arrive, has recorded the ids of the pulled images one after the other, and has reported before image i exactly 100 i / n, growing strictly from 0 and below 100 |
| `Release.RecordedExactly` | prep.sh:200-205 | under the name of a pulled image stands the id of a pulled image of that name, whatever stood there before; every other record is unchanged |
| `Release.OwnIdRecorded` | prep.sh:200-205 | an image whose name no other pulled image shares has its own id |
| `Release.Comm23` | prep.sh:247 | scanning two sorted lists yields the difference of the multisets, sorted |
| `Release.RemoveOldImages` | prep.sh:237-248 | each installed platform image is passed to removal as often as it is installed beyond what the release names; so every installed line of one of the two forms that the release does not name, and no line of another form; without any platform image the script ends |
| `Release.WhatIsRemoved` | prep.sh:237-248 | no image of the release with a single installed entry is removed, and every other installed platform image is |

## Left out

- Real ZFS, `exec`, Docker, systemd, D-Bus, netlink and HTTP: foreign effects. Only their contracts appear, as classes or parameters with failures.
- `go/rabbitmq-manager`, `go/skvs_cli`, `go/platform-feedback`: thin wrappers around clients and commands; they would add only easy members.
- Flags, reports, log and success messages, `main`, `services/`, `config/`, the other shell scripts: user interface and fixed data.
- Clock internals and time zones: the wall-clock fields are an input, and that they move on between runs is a hypothesis of the history theorems (`Chains.MayFollow`). A clock that is set back breaks the chain exactly as `Chains.OwnSnapshotExactly` says.
- Chains.ChainSafety: assumes for runs that list the dataset that the deletion of no member of the group may be refused, since a snapshot that is left behind becomes the newest of its group (`Chains.StartsAtExactly`), and a clock that is also later than the newest snapshot at the start.
- Archive.DirectoryRestores: assumes of runs that send into the directory that their renames work in runs of the group, labels have no dashes and dash forms differ, because without that the files are not all-or-nothing or not the group's own; of runs that send elsewhere, clean directories and labels without slashes.
- ZfsSnapshots.Cleanup: the spare capacity of a slice is any number; the zero values in it are empty names, which no snapshot has.
- Stores.Driver.CreateSnapshots: does not say whether a batch with one name twice is refused or takes it once, because that is up to the driver: the stand-in driver of the tests takes it (go/zfs-snapshots/zfs_snapshots_test.go:147-162). The set of snapshots cannot hold one name twice.
- Stores.Driver.SendSnapshots: that the two snapshots belong to one dataset, which ZFS asks for too, is not part of its contract; `newest` never chooses others.
- Netconf.HistoryOnlyCustom: a file is known by its path; links and dot components in reported paths are not resolved.
- Names.DumpPathTime: `path.Join` is modelled for a directory as `path.Clean` returns it and a file name without slashes or dot components; a label with a slash, which ZFS refuses, is not cleaned.
- Changes to the snapshots or to the directory by others between or during runs; durability (`f.Sync`); the unused sort methods of `datasetSlice`.
- Addresses.ContainsMeaning: reading and printing IPv6 addresses are parameters; a mask always has four octets, as parseMap makes it. Octets of an IPv4 address may have leading zeros, as in the Go versions of that time.
- Netconf.ResetToDHCP: what networkd reports about each interface is an input for the moment its turn comes; `os.Stat` and the file-system interface are taken to see the same files.
- Release.FetchReleaseData: the shell's file-name expansion of unquoted words is not modelled. The order in which `jq` prints the images is left open.
- Release.PullAllImages: the layers of an image, the places where they are and its id are answers of the environment; the registry prefix is a plain string.
