# StrikeHub: a verified model of the connector hub

StrikeHub downloads connector bundles, installs them into a cache directory,
starts and supervises the connector processes, and tears them down. This
project models the parts of it that carry an algorithm or a protocol, and
proves what the code and its comments promise about them. `dafny verify
dfyconfig.toml` checks all of it.

The model follows the program's own form. Code that changes things step by
step is a method or a class whose `ensures` equates the new state with a
specification function of the old one (the stager, the cache folder, the
socket client, the dedupe cache, the kernel seen by the teardown, the start
hub, the back-off maps); the properties are then lemmas about that function,
for every input, run or interleaving.

| module | what it models |
|---|---|
| `Text`, `Timestamps` | strings; `YYYY-MM-DDTHH:MM:SSZ` timestamps and "newest wins" |
| `FileTree`, `LinkSafety` | directories, files, links and hard links, path lookup through links, the system calls used |
| `BundleExtract`, `BundleStager` | pass 1 and pass 2 of the tar and zip extractors |
| `BundleContainment`, `BundleContent`, `BundleAgreement`, `BundleAcceptance` | where an extraction writes, what it leaves, that tar and zip agree, and what is accepted, passed over and refused |
| `BundleInstall`, `BundleFetch`, `BundleRecovery`, `BundlePipeline` | the install in its order, crashes and recovery, the version record, archive to cache |
| `NewestWins`, `FetchRefinement`, `Checksums` | seeds and fetches over whole runs, and that those on the cache directory are its steps; the checksum decision |
| `StartControl`, `StartConvergence`, `MintBackoff` | the start effect: exclusion, convergence, warnings and the token cooldown |
| `ProcessTree`, `Teardown` | the descendant walk; TERM, grace, KILL |
| `MatrixWs` | requests and replies over one socket, exits, reconnecting |
| `EventDedupe` | the windowed cache against an unbounded log |
| `Transport`, `Escaping` | gateway URLs; escaping for JavaScript and HTML |

## Where a promise needs a condition

Some claims of the code hold only under a condition. The code is kept as it is,
and for each claim this is what is proved.

- Crash recovery ("no half-installed state survives a restart"): exact. Every crash
  is repaired by the next completed run if and only if the release does not strand
  the folder (`BundleRecovery.CrashRecoveryIff`): no item is reached after which the
  cache looks current while something is still to come. `PlainReleaseRecovers` gives
  the releases for which this never happens. Three families do strand a folder: a
  staged version file that is not older than the release, a second binary that is
  not in place, and a directory under the binary's own name (`VersionFileStrands`,
  `SecondBinaryStrands`, `DirectoryAsFileStrands`). A version entry that is a file is
  not counted as part of the bundle, because the record replaces it in any case.
- Install exactness: exact. All staged entries arrive if and only if none has the
  name of the temporary file that a binary is written to
  (`BundleInstall.InstallExactIff`). The results on crashes and on the way from
  archive to cache assume that there is none.
- The record never exceeds the bytes: exact, for every event at every consistent
  slot and for whole runs (`NewestWins.StepConsistentIff`, `RecordBoundIff`). It is
  lost only by a completed fetch that records a version without placing the binary,
  over no bytes or over complete bytes that the release is newer than. An archive
  with only `name.exe` does that on a host that runs `name`.
- Start exclusion: exact at every safe state (`StartControl.OverlapIff`). A start
  begun while an eviction of the same connector is under way lets two tasks hold it,
  and any other start does not; `OverlapBreaksExclusion` reaches such a state.
- The process walk: exact. It finds all pids within 32 steps if and only if there are
  at most 4096 (`ProcessTree.WalkIsComplete`), and always as many as fit
  (`WalkFindsUpToCap`), for tables in which each pid has one parent, as in every
  table read from a process listing (`ScanHasSingleParents`).
- Pass 1 of tar and zip: exact (`BundleAgreement.PassOneAgreesIff`). Only zip takes
  `name.exe` for the binary, so they differ when such a file comes first from another
  directory, or alone.
- References are fresh exactly while fewer than 2^64 are taken
  (`MatrixWs.RefsFreshIff`). Who is left without a reply when a connection ends is
  stated exactly by `LeftWaitingIff`: after a failed send, a failed heartbeat and the
  end of all senders, the callers whose command went out and had no reply.
- Hosts that round-trip through a printed authority: exact
  (`Transport.AuthorityRoundTrip`, `GoodHostsRoundTrip`); being free of colons and
  slashes is not enough (`ColonFreeIsNotEnough`). Rebuilding a candidate from its
  probe URL: exact (`RebuildFromAnyBase`), with the empty base URL as an input where
  it fails (`EmptyBaseIsNotRebuilt`).
- "A relative name without `..` cannot resolve outside its join base": exact. No such
  name leads out if and only if no link below the base leads out when it is looked up
  by its own path (`LinkSafety.NamesStayInsideIff`). The extractors keep to a stricter
  rule that they can check before a link is made, that every target is relative and
  free of `..`, which suffices for containment. In every tree a link to the parent,
  and an absolute link to a directory elsewhere, lead out (`ParentLinkEscapes`,
  `AbsoluteLinkEscapes`), so neither half of that rule can be dropped; a refused
  target such as `lib/../x` may still have stayed inside.

## Where the code and its comments differ

- The comment on the name check for links and zip entries calls it complete because
  a relative name without `..` cannot resolve outside its base; it leaves out the
  condition on the links already below that base.
- The comment on the tar extractor says that setuid, setgid and sticky bits are
  dropped; the mask it applies keeps them, and so does the model.
- The comment in `ott_mint_allowed` says that a failure recorded in the future
  allows a mint; the code denies it until the cooldown after it has passed, and so
  does the model (`MintBackoff.MintAllowedIff`).

## Model

| member | source | states |
|---|---|---|
| FileTree.WalkConfined | crates/sh-core/src/connector_fetch.rs:1079-1140 | a lookup under a directory whose links are all relative and free of `..` ends under that directory, or finds nothing, for every path and any chain of links |
| LinkSafety.NamesStayInsideIff | crates/sh-core/src/connector_fetch.rs:1106-1140 | no name without `..` leads out of a directory if and only if none of the links below it does when looked up by its own path |
| FileTree.ParentLinkEscapes | crates/sh-core/src/connector_fetch.rs:1113-1140 | in every tree, a plain name that links to the parent directory resolves outside the directory it is looked up in |
| FileTree.AbsoluteLinkEscapes | crates/sh-core/src/connector_fetch.rs:1113-1140 | in every tree, so does a link with an absolute target that is a directory elsewhere |
| FileTree.HardLinkContained | crates/sh-core/src/connector_fetch.rs:690-740 | a hard link, also to a symlink, made below the stage shares no content with anything outside and keeps the stage confined |
| FileTree.WriteFileContained | crates/sh-core/src/connector_fetch.rs:600-654 | writing through a path below the stage changes nothing outside it |
| BundleExtract.TargetIsPlain | crates/sh-core/src/connector_fetch.rs:588-612 | an accepted tar entry lands at a non-empty path of plain names below the stage |
| BundleExtract.ZipTargetIsPlain | crates/sh-core/src/connector_fetch.rs:977-1010 | the same for an accepted zip entry, after backslashes are turned round |
| BundleContainment.NoWriteThrough | crates/sh-core/src/connector_fetch.rs:1143-1176 | when the ancestor check passes, the parent of the spot is looked up at the very place its name spells |
| BundleContainment.TarStepContained | crates/sh-core/src/connector_fetch.rs:579-755 | one tar entry of any kind, staged or refused or failing at any system call, changes nothing outside the stage (so nothing in the cache) and keeps it confined |
| BundleContainment.ZipStepContained | crates/sh-core/src/connector_fetch.rs:970-1057 | the same for one zip entry |
| BundleContainment.TarRunContained | crates/sh-core/src/connector_fetch.rs:579-755 | for every archive, pass 2 of the tar extractor changes nothing outside the stage |
| BundleContainment.ZipRunContained | crates/sh-core/src/connector_fetch.rs:970-1057 | for every archive, pass 2 of the zip extractor changes nothing outside the stage |
| BundleStager.Stager.EnsureNoSymlinkAncestor | crates/sh-core/src/connector_fetch.rs:1143-1176 | the loop over the path's prefixes finds a link exactly when one lies on the path |
| BundleStager.Stager.ExtractTarInto | crates/sh-core/src/connector_fetch.rs:579-755 | the extraction loop on the tree in place ends in the tree and verdict of `TarRun`, contained in the stage |
| BundleStager.Stager.ExtractZipInto | crates/sh-core/src/connector_fetch.rs:970-1057 | the same for zip and `ZipRun` |
| BundleContent.BinaryStaged | crates/sh-core/src/connector_fetch.rs:506-578 | when pass 1 found the binary and pass 2 ran to its end, the binary is staged at the top as a file or link |
| BundleContent.ExtractionRefinesFold | crates/sh-core/src/connector_fetch.rs:579-752 | a conflict-free archive of files, directories, symlinks and hard links is accepted, and the staged tree is exactly the map from path below the binary's directory to what was last put there, with just the directories above those paths |
| BundleAcceptance.ZipRefinesFold | crates/sh-core/src/connector_fetch.rs:970-1057 | the zip extractor stages the same fold of the archive's files and links, whatever directory entries stand between them |
| BundleAcceptance.ZipSkipsDirs | crates/sh-core/src/connector_fetch.rs:977-983 | readable directory entries, of any name, change nothing: the archive is accepted and staged as it would be without them |
| BundleAcceptance.ZipPrefixSkipsDirs | crates/sh-core/src/connector_fetch.rs:930-937 | pass 1 of zip passes over them too |
| BundleAcceptance.TarFailsClosed | crates/sh-core/src/connector_fetch.rs:566-755 | a completed run met no violation in any entry: every name and link target safe, every kind known, every referent within the bundle, no call failed that matters |
| BundleAcceptance.ZipFailsClosed | crates/sh-core/src/connector_fetch.rs:970-1057 | the same for zip, for all but directory entries |
| BundleAcceptance.TarDotIsIgnored | crates/sh-core/src/connector_fetch.rs:601-611 | an entry `./x` is staged as `x` would be, also when the binary's own directory was written with a dot |
| BundleAcceptance.RootEntry | crates/sh-core/src/connector_fetch.rs:604-615 | the entry `./` is passed over where the binary was found below `./`, and refuses the archive where it was found without |
| BundleContent.StepBuilds | crates/sh-core/src/connector_fetch.rs:588-752 | one entry of any kind adds its directory, file or link to the represented bundle and disturbs no other path |
| BundleAgreement.WithinAgrees | crates/sh-core/src/connector_fetch.rs:760-778 | the prefix test on joined strings and the prefix test on components accept the same names |
| BundleAgreement.PassOneAgreesIff | crates/sh-core/src/connector_fetch.rs:517-550 | pass 1 of the two formats gives the same directory, or stops for the same reason, exactly when no file is found or the first file named `name` has the directory of the first one named `name` or `name.exe` |
| BundleAcceptance.TarPrefixFound | crates/sh-core/src/connector_fetch.rs:514-550 | in any archive pass 1 of tar takes the directory of the first regular file of that name, if every name up to it is safe |
| BundleAcceptance.TarPrefixIff | crates/sh-core/src/connector_fetch.rs:514-550 | pass 1 of tar finds a binary exactly when there is such a file |
| BundleAcceptance.ZipPrefixFound | crates/sh-core/src/connector_fetch.rs:927-946 | pass 1 of zip takes that of the first file of either name, passing over links and directories |
| BundleAcceptance.ZipPrefixIff | crates/sh-core/src/connector_fetch.rs:927-951 | pass 1 of zip finds one exactly when there is such a file |
| BundleAcceptance.NameSplits | crates/sh-core/src/connector_fetch.rs:938-944 | a zip name is its directory, a slash and a last part without one, or that part alone |
| BundleAgreement.RunsAgree | crates/sh-core/src/connector_fetch.rs:977-1054 | on the same portable items the two extractors end in the same tree with the same verdict, from any tree and whatever fails |
| BundleInstall.SortNamesInOrder | crates/sh-core/src/connector_fetch.rs:818-850 | the install order is the directory listing, each name once, directories before files before binaries, names in order within a kind |
| BundleInstall.CacheFolder.ReplaceBinary | crates/sh-core/src/connector_fetch.rs:1207-1250 | the temporary-file-and-rename write leaves the folder with the binary replaced and no temporary file, or with the binary untouched |
| BundleInstall.CacheFolder.InstallStagedBundle | crates/sh-core/src/connector_fetch.rs:807-898 | the install loop on the cache in place ends in the folder and verdict of `Install` |
| BundleInstall.InstallExact | crates/sh-core/src/connector_fetch.rs:807-898 | after success every staged name has exactly its staged subtree (nothing stale in replaced directories) and every other name is untouched |
| BundleInstall.InstallExactIff | crates/sh-core/src/connector_fetch.rs:1207-1250 | with a staged temporary-file name the exactness fails, without one it holds |
| BundleRecovery.InstallOkIff | crates/sh-core/src/connector_fetch.rs:834-898 | an install succeeds exactly when something is staged and each entry can be installed into the cache as it was found |
| BundleInstall.BinaryOldOrNew | crates/sh-core/src/connector_fetch.rs:840-898 | at every moment, also in mid-item, the binary is wholly old or wholly new, and new only once every staged directory and file is in place |
| BundleInstall.FailedInstallIsSeen | crates/sh-core/src/connector_fetch.rs:851-898 | an install that fails stops in one of the states that a crash can leave, so what holds of those holds of it |
| BundleRecovery.CrashRecoveryIff | crates/sh-core/src/connector_fetch.rs:194-265 | a run that decided to download may be cut short anywhere before its record is whole, and the next completed run for that release leaves the full bundle in place, if and only if the release does not strand the folder |
| BundleRecovery.PlainReleaseRecovers | crates/sh-core/src/connector_fetch.rs:133-143 | a release without a version file never strands a folder whose record it is newer than, nor, with its binary last, one from which the binary is gone |
| BundleRecovery.VersionFileStrands | crates/sh-core/src/connector_fetch.rs:818-898 | a staged version file that is not older than the release strands every folder that holds an old binary |
| BundleRecovery.SecondBinaryStrands | crates/sh-core/src/connector_fetch.rs:824-898 | a second binary that is not in place strands a folder from which the first is gone and whose record is not older |
| BundleRecovery.DirectoryAsFileStrands | crates/sh-core/src/connector_fetch.rs:851-863 | a directory under the binary's own name strands such a folder when another directory follows it, also one that is in place |
| FetchRefinement.FetchRecordsRelease | crates/sh-core/src/connector_fetch.rs:253-257 | a completed fetch leaves a record that reads back as the release's own tag and timestamp |
| FetchRefinement.NextFetchIff | crates/sh-core/src/connector_fetch.rs:133-143 | after it, the same release is current, and another is fetched exactly when it is newer |
| FetchRefinement.FetchRefinesStep | crates/sh-core/src/connector_fetch.rs:133-265 | a fetch on the cache directory is the completed step of the newest-wins account, or none, or, when its install fails, one that did not get to the record |
| FetchRefinement.CutShortRefinesStep | crates/sh-core/src/connector_fetch.rs:194-265 | a fetch cut short anywhere is a step that did not get to the binary, or to the record, or left the record torn |
| FetchRefinement.SeedRefinesStep | crates/sh-core/src/connector_seed.rs:77-98 | wherever it ends, a seed on the cache directory is that step of the account |
| BundlePipeline.ArchiveToCache | crates/sh-core/src/connector_fetch.rs:506-898 | from archive to cache, with the directory that pass 1 finds: nothing outside the stage changes, the binary is among the bundle, the cache holds each file and link of the bundle as last put, bundle directories hold nothing else, other names are as before |
| Timestamps.ParseInverse | crates/sh-core/src/connector_version.rs:3-5 | reading a timestamp and printing it are inverse |
| Timestamps.LexIsChronological | crates/sh-core/src/connector_version.rs:3-5 | for valid timestamps (RFC 3339, section 5.6) byte order is the order of the seconds since the epoch, leap years included |
| Timestamps.IsNewerIsLater | crates/sh-core/src/connector_version.rs:48-55 | `is_newer` is exactly "strictly later", with the empty string before every timestamp |
| NewestWins.RecordNeverExceedsBytes | crates/sh-core/src/connector_fetch.rs:253-257 | over any seeds and fetches, cut short anywhere, the recorded timestamp never exceeds that of the complete bytes in place |
| NewestWins.StepConsistentIff | crates/sh-core/src/connector_fetch.rs:133-143 | from every consistent slot, every event keeps that bound except a completed fetch that records a version it did not place over older or no bytes |
| NewestWins.RecordBoundIff | crates/sh-core/src/connector_fetch.rs:194-265 | over any run the bound holds at every moment exactly when no fetch does that |
| NewestWins.RecordNeverDecreases | crates/sh-core/src/connector_version.rs:31-46 | on crash-free runs the record never decreases |
| NewestWins.NewestWinsRun | crates/sh-core/src/connector_seed.rs:20-22 | after any crash-free run the record is the latest timestamp that any seed or fetch brought, and the bytes in place are those that came with it |
| NewestWins.SeedRepeats | crates/sh-core/src/connector_seed.rs:60-108 | a seed cut short anywhere and then completed ends as if it had not been cut short |
| NewestWins.FetchRepeats | crates/sh-core/src/connector_fetch.rs:133-265 | and so does a fetch |
| NewestWins.TornSeedIsRedone | crates/sh-core/src/connector_seed.rs:60-108 | a seed interrupted in mid-copy is redone by the next seed of the same install, whatever fetches came between |
| NewestWins.ConnectorCache.SeedBundledConnectors | crates/sh-core/src/connector_seed.rs:54-108 | the loop seeds every connector by its own slot; one that fails does not stop the rest |
| NewestWins.SeedingIsSeparate | crates/sh-core/src/connector_seed.rs:60-108 | seeding leaves the slots of other connectors as they were |
| NewestWins.SeededInItsSlot | crates/sh-core/src/connector_seed.rs:60-108 | each connector of the bundle is seeded once, into its own slot |
| NewestWins.FirstSeed | crates/sh-core/src/connector_seed.rs:60-108 | on an empty cache a connector that comes with the hub is put in place with its record, and one that does not stays missing |
| Checksums.MatchChecksums | crates/sh-core/src/connector_fetch.rs:388-430 | the first line that names the asset decides; only if none does, the side-car's first token; otherwise there is no verdict |
| Checksums.InstalledExactlyWhen | crates/sh-core/src/connector_fetch.rs:362-374 | an asset is installed exactly when the first line naming it has the actual hash, or no line names it and the side-car has; the rule admits one outcome |
| Checksums.MismatchIsFinal | crates/sh-core/src/connector_fetch.rs:394-412 | a mismatching line is never rescued by a later line or by the side-car |
| Checksums.ListRoundTrip | crates/sh-core/src/connector_fetch.rs:396-402 | a list with one space, or in sha256sum's text or binary format, with either line end, reads back entry by entry |
| Checksums.UnendedLine | crates/sh-core/src/connector_fetch.rs:396 | the last line counts also without a line end |
| Checksums.ReadLineIff | crates/sh-core/src/connector_fetch.rs:396-400 | a line gives a hash to a name exactly when there is white space in it |
| Checksums.FirstTokenIff | crates/sh-core/src/connector_fetch.rs:415-418 | the side-car's hash is the first stretch of its text without white space |
| Checksums.ListedDecision | crates/sh-core/src/connector_fetch.rs:388-430 | the decision for such a list in terms of its entries |
| StartControl.RunSafe | crates/sh-ui/src/app.rs:954-978 | in every interleaving without overlap at most one task holds a connector between `starting.insert` and its release, and none that runs, failed or is being evicted |
| StartControl.RunAccounted | crates/sh-ui/src/app.rs:1203-1272 | every process ever started is coming up, failed, running or evicted: none is lost, doubled or overwritten |
| StartControl.SpawnAndInsertGuarded | crates/sh-ui/src/app.rs:1213-1258 | a process is spawned only while its connector has no runner, and a runner entry is never overwritten |
| StartControl.FailedStaysFailed | crates/sh-ui/src/app.rs:1262-1272 | a connector whose spawn failed is not attempted again |
| StartControl.AcquireIff | crates/sh-ui/src/app.rs:966-978 | a task takes a connector exactly when no task holds it, its spawn never failed and it has no runner |
| StartControl.ReleaseFrees | crates/sh-ui/src/app.rs:1203-1205 | giving a connector up frees it for the next task, and changes nothing else |
| StartControl.GivenUpStart | crates/sh-ui/src/app.rs:980-989 | a start that is given up leaves everything as it was |
| StartControl.WholeStart | crates/sh-ui/src/app.rs:954-1258 | a whole start adds its runner and its attempt and leaves no other trace |
| StartControl.FailedStart | crates/sh-ui/src/app.rs:1262-1272 | a start whose spawn fails frees its task, and no task can take the connector again |
| StartControl.WholeEviction | crates/sh-ui/src/app.rs:1428-1471 | an eviction removes the runner, after which the connector can be started again |
| StartControl.StepIsLocal | crates/sh-ui/src/app.rs:954-1272 | no step touches another connector |
| StartControl.OverlapIff | crates/sh-ui/src/app.rs:1428-1471 | at every safe state, starting a connector leads to two tasks holding it, once an eviction of it ends and another task starts it, exactly when that eviction was under way |
| StartControl.OverlapBreaksExclusion | crates/sh-ui/src/app.rs:1428-1471 | a run from idle that reaches such a state |
| StartControl.StartHub.TryAcquire | crates/sh-ui/src/app.rs:954-978 | the double check under the lock acquires exactly when the specification's step does |
| StartControl.StartHub.Publish | crates/sh-ui/src/app.rs:1249-1258 | inserting the runner and leaving `starting` keeps every other runner |
| StartControl.StartHub.TakeRunners | crates/sh-ui/src/app.rs:1428-1437 | the eviction loop removes each listed runner, as the specification's evictions in turn |
| StartControl.StartHub.ClearStarting | crates/sh-ui/src/app.rs:1465-1471 | the loop that clears `starting` is the specification's end of each eviction |
| StartConvergence.WriteSettlesOne | crates/sh-ui/src/app.rs:71-76 | the write guard lets a write through just when the connector does not yet show the failure, and the write settles that connector and no other |
| StartConvergence.StepLowersPotential | crates/sh-ui/src/app.rs:1169-1206 | every step of every task lowers one measure, so no schedule of the re-firing effect goes on for ever |
| StartConvergence.FireUntilQuiet | crates/sh-ui/src/app.rs:820-1206 | however tasks interleave, a firing ends after exactly one write and one re-firing per unsettled connector that is not gated; all those show the failure, all other entries are untouched and `starting` is empty |
| StartConvergence.FireAgain | crates/sh-ui/src/app.rs:1169-1206 | once settled, firing again writes nothing |
| MintBackoff.MintRate | crates/sh-ui/src/app.rs:1075-1134 | any k failed mints of one connector with no successful start between them span at least (k-1) * 300 s |
| MintBackoff.MintAllowedIff | crates/sh-ui/src/app.rs:151-165 | after any run a mint is let through exactly when every failure that no start has cleared is 300 s old |
| MintBackoff.ConnectorsAreIndependent | crates/sh-ui/src/app.rs:151-180 | cooldown, warning and mint in flight of a connector depend on its own events alone |
| MintBackoff.InFlightIff | crates/sh-ui/src/app.rs:1075-1134 | a request is in flight exactly when a check let one through that no token and no error has answered |
| MintBackoff.WarnsOncePerEpisode | crates/sh-ui/src/app.rs:89-110 | between two warnings for a connector there is a successful start |
| MintBackoff.EpisodeBeginsWithWarning | crates/sh-ui/src/app.rs:1184-1190 | the first failure after a successful start is warned about |
| MintBackoff.Backoff.CheckMint | crates/sh-ui/src/app.rs:151-165 | the check on the shared map is the specification's check and leaves the map alone |
| ProcessTree.DescendantsFrom | crates/sh-core/src/process.rs:266-285 | the stack loop ends on every table, cyclic ones too, with the specification's walk |
| ProcessTree.WalkIsSound | crates/sh-core/src/process.rs:246-285 | the result is without repeats, disjoint from the roots, at most 4096 long, and each member is 1 to 32 child steps from a root |
| ProcessTree.ScanHasSingleParents | crates/sh-core/src/process.rs:289-330 | a table built from a listing that names each pid once gives each pid one parent |
| ProcessTree.WalkFindsUpToCap | crates/sh-core/src/process.rs:246-285 | with one parent each, the walk finds as many pids as there are within 32 steps of their nearest root, up to 4096 |
| ProcessTree.WalkIsComplete | crates/sh-core/src/process.rs:246-285 | it finds exactly those pids if and only if there are at most 4096 of them |
| Teardown.SweepManagedRoots | crates/sh-core/src/process.rs:595-613 | the sweep never returns the hub itself, returns only processes whose executable is below a managed root, and all of them unless a cap is hit |
| Teardown.TargetSet | crates/sh-core/src/process.rs:658-720 | the targets are exactly the tracked pids, their walked descendants, the swept pids and theirs |
| Teardown.RoundIsExact | crates/sh-core/src/process.rs:706-714 | a round of signals reaches every tracked group and every target, with the one signal, and nobody else |
| Teardown.AllDeadIff | crates/sh-core/src/process.rs:726-736 | the early return's test: no live process is a target or in the group of a tracked child |
| Teardown.EscalationReachesAll | crates/sh-core/src/process.rs:740-786 | in the kill phase every tracked group, and every target still alive at its check, gets SIGKILL, none of them that belongs to us survives, nothing else dies and nothing else is signalled |
| Teardown.Kernel.TeardownProcessTree | crates/sh-core/src/process.rs:658-786 | for any reaction to SIGTERM: the early return happens only when all targets and groups are dead, otherwise the kill phase runs; on an all-dead set nothing changes |
| MatrixWs.RefsFreshIff | crates/sh-core/src/matrix_ws.rs:182-213 | references are pairwise different and never the join reference exactly while fewer than 2^64 are taken |
| MatrixWs.StepInv | crates/sh-core/src/matrix_ws.rs:199-342 | every arm of the select loop keeps the references, the conservation of callers and the routing of replies |
| MatrixWs.RunIsSound | crates/sh-core/src/matrix_ws.rs:182-345 | on every run no reference is reused, each accepted caller is waiting under one reference or has exactly one reply, and a caller has an answer exactly when it is the first reply to its reference after its command went out |
| MatrixWs.RunSendsAndFails | crates/sh-core/src/matrix_ws.rs:199-342 | on every run each document goes out with its own caller's content under its own reference, heartbeats likewise, in order; and a caller has a failure exactly when its command was refused for that reason or its wait was drained for it |
| MatrixWs.SentOfIff | crates/sh-core/src/matrix_ws.rs:228-245 | a message went out exactly when some event sent it, with that event's reference, caller and content |
| MatrixWs.StopsAtFirst | crates/sh-core/src/matrix_ws.rs:199-342 | a run consumes the events up to and including the first that is an exit, and exits as that event says |
| MatrixWs.InsertNeverDisplaces | crates/sh-core/src/matrix_ws.rs:245-252 | inserting a pending reply never displaces another |
| MatrixWs.LeftWaitingIff | crates/sh-core/src/matrix_ws.rs:276-342 | wherever a run stops, the callers left without a reply are nobody after the error, close, closed and socket-error exits, and otherwise exactly those whose command went out and had no reply |
| MatrixWs.Client.RunLoop | crates/sh-core/src/matrix_ws.rs:199-342 | the loop over the fields in place is the specification's run |
| MatrixWs.ReconnectLoop | crates/sh-core/src/matrix_ws.rs:348-374 | the waits between attempts double from 2 s to a cap of 60 s, until connected or signed out |
| MatrixWs.BackoffIsCapped | crates/sh-core/src/matrix_ws.rs:369-372 | the waits are 2, 4, 8, 16 and 32 seconds and 60 from then on |
| EventDedupe.DedupeKeyInjective | crates/sh-core/src/sentry_init.rs:218-220 | two events share a key only when they share level and message |
| EventDedupe.DedupeCache.ShouldForward | crates/sh-core/src/sentry_init.rs:243-280 | expire, look up, insert and evict in place make a decision that the specification allows |
| EventDedupe.DedupeCache.BeforeSend | crates/sh-core/src/sentry_init.rs:336-353 | an event without a message is always sent and leaves the cache alone; any other is decided by its key |
| EventDedupe.DropsAreJustified | crates/sh-core/src/sentry_init.rs:243-280 | for every sequence and any choice among equally old entries, the cache never exceeds its cap and a drop has a same-key forward less than a window earlier |
| EventDedupe.CacheRefinesLog | crates/sh-core/src/sentry_init.rs:243-280 | while at most the cap's number of keys is active, decisions equal "forward unless the key was forwarded within the window" |
| Transport.AuthorityRoundTrip | crates/sh-core/src/transport.rs:350-381 | a printed host and port read back as themselves exactly when the host is printable with that port |
| Transport.GoodHostsRoundTrip | crates/sh-core/src/transport.rs:350-381 | the hosts that round-trip with every port: slash-free, and colon-free or bracketed with the first `]` last |
| Transport.RebuildExact | crates/sh-core/src/transport.rs:79-150 | building candidates from a WebSocket candidate's probe URL ends in that candidate exactly when its host is printable and nothing of it is trimmed |
| Transport.RebuildFromAnyBase | crates/sh-core/src/transport.rs:98-150 | for every base URL the built WebSocket candidate is rebuilt from its probe URL, unless its host is empty or ends in white space, and the separately coded fallback gives that candidate throughout |
| Transport.CandidatePair | crates/sh-core/src/transport.rs:121-150 | for every base URL: TLS for both candidates unless it says `http`, gRPC first on the `connectors-` host and then WebSocket, the same port, URLs that differ only so, probes by the same HTTP scheme |
| Transport.UrlRoundTrip | crates/sh-core/src/transport.rs:79-109 | a candidate's URL reads back: its scheme by name, its host and port exactly where the host is printable; the probe URL has the same text after its scheme |
| Transport.BaseNamesHost | crates/sh-core/src/transport.rs:121-139 | a base URL of any scheme, with any path, gives the host and port it names |
| Transport.BareBaseNamesHost | crates/sh-core/src/transport.rs:129-139 | so does a base without a scheme, which is taken for one with TLS |
| Transport.ParseU16Iff | crates/sh-core/src/transport.rs:359-379 | a port is digits with a value below 65536, after a plus sign or none |
| Transport.ColonFreeIsNotEnough | crates/sh-core/src/transport.rs:350-364 | a host without colons or slashes that reads back with no port |
| Transport.EmptyBaseIsNotRebuilt | crates/sh-core/src/transport.rs:121-150 | the empty base URL gives a candidate that is not rebuilt |
| Escaping.JsStringEscape | crates/sh-core/src/oauth.rs:1166-1184 | the loop's output, between quotes of either kind and before any text, is one literal (ECMA-262, 13th edition, section 12.9.4) whose value is the input, with no raw line end, `<`, `>` or NUL |
| Escaping.JsRoundTrip | crates/sh-core/src/oauth.rs:1163-1184 | reading the escaped literal up to its first unescaped quote gives the input and leaves exactly the text after it |
| Escaping.FivePassesAreOne | crates/sh-core/src/oauth.rs:1186-1192 | five replacements over the whole string equal one pass character by character |
| Escaping.HtmlRoundTrip | crates/sh-core/src/oauth.rs:1186-1192 | decoding the five references undoes the escaping |
| Escaping.HtmlNothingRaw | crates/sh-core/src/oauth.rs:1186-1192 | no `<`, `>` or quote is left, and every `&` begins one of the five references |

## Left out

- Network, TLS, HTTP, the release API, archive and gzip decoding, JSON and SHA-256: entries, hashes, frames and records are given; a version record is an abstract pair of read and write functions, and a torn one reads as the empty timestamp.
- Windows path prefixes in `Components`: paths are Unix paths, as on the hosts whose link handling the extractor relies on.
- The staging directory is fresh, and its own path holds no links.
- File modes are carried along, but nothing is proved about them.
- A symlink in the cache directory at the binary's temporary name, at the binary or at its version record, a staged one included, is read as no record and is replaced rather than written through; a staged binary that is a link is read through the link by a given function.
- Hard links to staged links that do not lead by a plain path to a staged file, or with `.` in the referent's name, are outside the fold of `ExtractionRefinesFold`; containment covers them.
- Zip directory entries are skipped before their names are checked, in the model as in the code, so "every name was checked" is not claimed for them.
- A tar binary at the archive root whose archive also holds an entry for the root itself is refused, as in the code.
- The whole fetch around the install (listing releases, choosing the asset and the extractor by its name, falling back to a stale binary, several connectors at once), and the wording of messages.
- The account of `FetchRefinement` is of releases that stage no version entry and whose platform binary is not a directory, in a cache without a directory in the place of the record; `CrashRecoveryIff` has no such premise.
- Stop at a signed-out or restarted server, which also clear `starting`, and starts that overlap the eviction of the same connector (except for the witness run).
- The other ways the start effect writes the connector list: convergence is proved for connectors that cannot authenticate, with no other writer.
- The health loop's decision to evict, process identity after a pid is reused, job objects, the signal handler, and what signals do beyond "SIGKILL ends a process, SIGTERM may".
- The join handshake and the commands drained when it fails, and the new run after a successful reconnect.
- Probing the candidates and choosing among the reachable ones.
- Braced, octal and `\0` escapes, line continuations, and a backslash before any other character in the JavaScript reader: it refuses them, and the printer never writes them.
- User interface, configuration, allow lists, the token request itself and the sign-in flow around the escaped pages.
