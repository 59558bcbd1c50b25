# VanaHub: a verified model

VanaHub is a package manager for Ashita v4 addons: a native engine (C++) downloads, inspects and
installs packages, a Lua addon keeps profiles and drives the engine frame by frame, and Python tools
check submissions. This project models the parts where something can be lost or let through, and
proves what they are for.

* **File transactions** (`Storage`, `Disks`, `Installation`, `Recovery`, `SettingsSteps`,
  `SettingsRestore`, `Histories`). The disk is a value that changes by atomic renames and interruptible copies and
  deletions; every state a job passes through is recorded, so that a crash leaves any one of them.
  Installs, uninstalls and settings restores are methods that perform the steps of the engine on
  whatever disk they find, refusals of the operating system and leftovers of earlier jobs included,
  and recovery may be interrupted or get stuck any number of times. What matters about a disk is
  which trees a package *shows*: the live one or, if there is none, those that recovery may put back.
  `Ownership` and `UserFiles` add the list of owned files and prove what happens to user files over
  whole runs. `JsonText` is the reader of the journal.
* **Signed catalog cache** (`SignedCache`). Generations named by their hash, a pointer, activation,
  pruning, and the loader that searches, deletes and repairs. The hash and the signature are
  arbitrary functions.
* **Archives** (`Paths`, `Extraction`, `Base64`). Path safety as the loop over segments, the two
  passes over an archive, and base64 with a wrapping 32-bit buffer.
* **Lua settings scanner** (`LuaLexer`, `LuaDelimiters`, `LuaTableKeys`, `LuaScan`). A lexer and a
  key blanker that overwrite the buffer they work on, a bracket stack and a whole-word search, each
  proved against a definition that does not mention its loop.
* **Profiles and their drivers** (`LuaValues`, `InstalledOrder`, `Profiles`, `ProfileNames`,
  `ProfileLoading`, `ProfileEdits`, `ProfileDocuments`, `AddonActions`, `AutoLoad`, `ImportDriver`). The profile document as an object
  whose every reachable state survives saving and loading, and two state machines against arbitrary
  job results, load answers, clocks and user actions.
* **Self-update** (`SelfUpdate`), **version order** (`SemVer`) and **redaction** (`Redaction`).

`Text` and `Wrappers` hold string functions and `Option`. `dafny verify dfyconfig.toml` checks
everything.

## Where the code does less than it says

The code was kept as it is; each case is a lemma or a condition in a contract.

* **Settings restore can delete the only copy.** If the commit and the rollback rename are both
  refused, the transaction is deleted with the backup in it although the message says that the
  previous settings were restored; so is a backup whose last rename is refused or whose place is
  taken, which a job id starting again at 1 makes possible (`native/src/engine.cpp:915-924`).
  `SettingsRestore.Drops` lists these cases. `SettingsRestore.OldSettingsSurvive` states when the old
  settings are lost: exactly in these cases, if no equal copy is elsewhere and equal ones were not just
  put in their place. `SettingsRestore.OccupiedSlotLoses` is such a run.
* **Recovery can get stuck.** A settings backup cannot be moved to `recovered-<id>` when that place
  is taken; every later recovery then stops at the same transaction (`native/src/engine.cpp:1080-1092`).
  `Recovery.Recover` says when.
* **A job may be given the id of a transaction that is still needed.** Nobody looks at the result of
  recovery (`addon/vanahub/versions/0.1.0/backend.lua:56`), ids restart at 1, and every job begins by
  deleting the transaction of its id (`native/src/engine.cpp:901`, `native/src/engine.cpp:976`). Of other
  packages a job leaves exactly what that deletion leaves (`SettingsRestore.RestoreIsLocal`,
  `Installation.InstallIsLocal`); in `SettingsRestore.TakenIdLoses` that is the only whole copy of
  somebody's settings.
* **A refused rollback of an install loses user files at the next one.** The old tree stays in the
  backup of the transaction although the message says that it was restored
  (`native/src/engine.cpp:1033-1037`). The next install finds nothing to merge, and recovery then deletes
  the backup: `UserFiles.SecondInstallLoses`. `UserFiles.DeployKeeps` gives the exact condition.
* **An update can lose user files.** The copy loop ends at the first failing copy, so one file in
  conflict with a shipped directory, or one whose copy the operating system refuses, loses the files
  after it as well (`native/src/engine.cpp:1020-1026`). `Ownership.MergeKeepsUserFiles` gives the exact
  condition for all files, `Ownership.CopiedUntilRefused` for each one, and
  `Ownership.RefusedCopyLosesLater` a merge without any conflict that loses two files.
* **A line break in a path** breaks the ownership list (`Ownership.OwnershipReadsBack`).
* **The temporary directory of package `x` is the settings directory of package
  `x.vanahub-import`** (`native/src/engine.cpp:899`): every restore for `x` that gets past its first two
  checks deletes them (`SettingsRestore.TemporaryIsGone`).
* **Activating the digest that is current already** deletes the current generation first
  (`native/src/engine.cpp:138`). Old-or-new needs the digests to differ; if they are equal, a crash
  leaves a catalog to find exactly when another generation is good
  (`SignedCache.ActivateSignedRepository`).
* **Settings can be restored while their addon is loaded.** While the import waits for an addon to
  unload, a catalog may be fetched, because that button only asks for other jobs
  (`addon/vanahub/versions/0.1.0/main.lua:181`). What the catalog turns out to have installed is then
  restored without a load check: exactly these entries are (`ImportDriver.Run`), and
  `ImportDriver.RestoresUnchecked` is a run in which one is.
* **A marker that cannot be written stops the manager for good.** The bootstrap checks that it can open
  `active.txt.tmp`, not that it can write it (`addon/vanahub/vanahub.lua:25-32`); an empty marker then
  replaces the old one and no launch starts anything any more (`SelfUpdate.EmptyMarkerBlocks`). A marker
  that is cut short may also name another version. `SelfUpdate.Manager.Launch` says exactly when the
  marker names a whole version.
* **Scripts spelled otherwise are not scanned.** Files are accepted by their folded extension, but only
  `.lua` in lower case is scanned (`native/src/core.cpp:144`, `native/src/engine.cpp:511`):
  `Extraction.ScanDependsOnSpelling`.
* **Control characters.** A text with a character that the writer escapes as `\u00xx` does not read
  back from a journal (`JsonText.ReadEscaped`); package ids always do.
* **An interrupted removal of a staged manager version** leaves a directory that refuses every later
  staging of that version (`native/src/engine.cpp:998-1010`); no marker ever names it.
* **An addon recorded under an unsafe id** is listed until the next start and then forgotten
  (`Profiles` requires safe ids, `ProfileEdits.UnsafeIdIsLost`).
* **Versions that spell a number with leading zeros** are neither greater nor smaller than each other
  (`SemVer.LeadingZerosTie`).
* **A redacted value is reported again** (`Redaction.FindingsRepeat`), so a prepared file with
  findings is never free of them.

## Model

| member | source | states |
|---|---|---|
| `Paths.IsSafeRelativePath` | native/src/core.cpp:151-170 | the segment loop accepts exactly the texts without backslash and NUL all of whose `/`-separated pieces are safe segments; the checks for empty, absolute and drive paths add nothing |
| `Paths.DriveIsUnsafe` | native/src/core.cpp:155-163 | a drive letter puts a colon into the first segment, so the drive check is subsumed by the segment check |
| `Paths.SafeJoin` | native/src/engine.cpp:472-477 | a joined path is safe if and only if both parts are, so dropping a leading `archiveRoot/` keeps safety |
| `Paths.SafePathStaysBelow` | native/src/core.cpp:151-170 | resolving a safe path from any directory ends strictly below that directory |
| `Paths.SegmentIs` | native/src/core.cpp:164-169 | which segments are safe, apart from device names, character by character |
| `Paths.DevicesAreRefused` | native/src/core.cpp:22-31 | a device name is refused in any case and with any extension |
| `Paths.DevicesStartWithName` | native/src/core.cpp:22-31 | nothing is taken for a device that does not start with a device name, alone or with a dot or a space behind it |
| `JsonText.JsonString` | native/src/engine.cpp:38-65 | the scanning reader returns exactly the value the recursive reader defines, and the empty string on every failure |
| `JsonText.ReadLiteral` | native/src/engine.cpp:46-64 | the character loop with its escapes decodes exactly the literal that starts there |
| `JsonText.ReadEscaped` | native/src/core.cpp:298-319 | an escaped value reads back as itself if and only if none of its characters needs a `\u` escape |
| `JsonText.EscapesAre` | native/src/engine.cpp:50-63 | the escapes are those of section 7 of RFC 8259 without `\u`, and every other letter makes the reader fail |
| `JsonText.InstallJournalReadsBack` | native/src/engine.cpp:978 | recovery reads back the package id of an install journal and no kind, for every safe id |
| `JsonText.SettingsJournalReadsBack` | native/src/engine.cpp:905-906 | recovery reads back the id and the kind `settings` of a settings journal, for every safe id |
| `JsonText.NoKind` | native/src/engine.cpp:1077 | an install journal is never taken for a settings journal, not even that of a package called `kind` |
| `Ownership.WriteOwnership` | native/src/engine.cpp:527-530 | the written list is the files, one line each |
| `Ownership.ReadOwnership` | native/src/engine.cpp:532-537 | reading delivers the safe lines of the list, in order |
| `Ownership.OwnershipReadsBack` | native/src/engine.cpp:527-537 | a list of safe paths reads back as written if and only if no path contains a line break |
| `Ownership.LinesAre` | native/src/engine.cpp:532-537 | the lines contain no line break, and written one below the other they are the text up to a last line break |
| `Ownership.OwnedIsListed` | native/src/engine.cpp:532-537 | a file is owned if and only if the list has it as a line and its path is safe |
| `Ownership.MergeKeepsUserFiles` | native/src/engine.cpp:1016-1027 | the copy loop keeps every user file if and only if none of them conflicts with a shipped one as file against directory and the operating system refuses the copy of none, whatever the iteration order |
| `Ownership.MergedTree` | native/src/engine.cpp:1016-1027 | then the merged tree is the shipped files and the unshipped user files, independent of the iteration order |
| `Ownership.PreserveShape` | native/src/engine.cpp:1016-1027 | the merge copies user files unchanged and changes nothing that was staged |
| `Ownership.FailingIsLost` | native/src/engine.cpp:1024-1025 | a user file in conflict with a staged one is never copied, nor is one whose copy is refused |
| `Ownership.CopiedUntilRefused` | native/src/engine.cpp:1020-1026 | without conflicts a user file that is not shipped again is copied if and only if neither its copy nor one of a user file before it in the iteration is refused |
| `Ownership.RefusedCopyLosesLater` | native/src/engine.cpp:1020-1026 | a merge without conflicts in which one refused copy loses two files |
| `Storage.SetAsideShows` | native/src/engine.cpp:1030 | after the rename of a live directory to the backup of a transaction whose journal names it, the package shows exactly its old tree and those that were set aside before; all other packages show the same as before |
| `Storage.PutBackIsInvisible` | native/src/engine.cpp:1035 | renaming it back shows nothing new of any package and leaves that tree live |
| `Storage.ReplaceIsLocal` | native/src/engine.cpp:1032 | a tree renamed into a vacant place is seen for that package and no other |
| `Storage.PreparingIsInvisible` | native/src/engine.cpp:977-996 | filling a transaction that holds no backup changes nothing that any package shows, whatever other transactions hold |
| `Storage.ErasingIsInvisible` | native/src/engine.cpp:1038 | deleting a spent transaction, entry by entry in any order, changes the tree of no package at any step |
| `Disks.Disk.RemoveTransaction` | native/src/engine.cpp:1038 | an interruptible `remove_all`: every recorded state is a partly erased transaction, and at the end it is gone |
| `Disks.Disk.Begin` | native/src/engine.cpp:976-978 | from any disk the transaction of a job is emptied and journalled; nobody sees that if its id named no transaction with a backup |
| `Disks.Disk.Create` | native/src/engine.cpp:977-978 | a transaction directory appears with any part of its journal before the whole of it |
| `Disks.Disk.Crash` | native/src/engine.cpp:1065-1069 | after a crash the disk is as one of the recorded steps left it |
| `Installation.Extract` | native/src/engine.cpp:494-521 | files appear in the staging directory one by one; only the transaction changes |
| `Installation.CopyUntracked` | native/src/engine.cpp:1019-1027 | the copy loop over the live directory produces the merge of the specification, up to the first copy that fails or is refused, step by step inside the staging directory |
| `Installation.UpdatedIs` | native/src/engine.cpp:1016-1028 | the new tree has every shipped file with its shipped contents; every other file but the list is one of the old tree that the old version did not own, unchanged; the list reads back as what was shipped |
| `Installation.Activate` | native/src/engine.cpp:1029-1039 | backup, commit, rollback and removal, whatever other transactions hold: every state shows the old tree, the new one or one that was set aside before, and each refusal ends in exactly the stated disk |
| `Installation.Install` | native/src/engine.cpp:972-1039 | from any disk and for every outcome of download, hash, extraction, copies and renames the exact final disk: when it ends done, the shipped files are live with their shipped contents beside untracked old ones alone and the list reads back; when it ends otherwise, the live addons are as before, or the old tree is in the backup; if the id named no transaction with a backup, every intermediate state shows the old addon, the complete merged new one or one set aside before, and nothing else changed |
| `Installation.InstallIsLocal` | native/src/engine.cpp:972-1039 | of every other package, and of all settings, an install with any id leaves exactly what deleting the transaction of that id leaves |
| `Installation.Uninstall` | native/src/engine.cpp:945-953 | exactly the listed files and the list are gone, the directory if nothing is left, and every state keeps all other files |
| `Recovery.RepairedStep` | native/src/engine.cpp:1070-1092 | one iteration of recovery, on whatever disk, shows nothing new of any package and keeps every whole old copy |
| `Recovery.RecoverItem` | native/src/engine.cpp:1070-1092 | one entry is put back, retained or left, then removed, if and only if its rename can be made; every intermediate state is a recovery step |
| `Recovery.Recover` | native/src/engine.cpp:1065-1095 | from any disk: recovery completes unless a rename it needs can fail, and with at most one tree of each package set aside if and only if none can; then no transaction is left and every package has a tree live that it showed before; otherwise a rename is stuck and nothing is lost |
| `Recovery.JammedIsStuck` | native/src/engine.cpp:1070-1092 | with at most one tree of each package set aside the order of the iteration does not decide whether recovery gets stuck |
| `Recovery.ModestJams` | native/src/engine.cpp:1080-1086 | a job can get recovery stuck only where the place is taken that its own backup, or an earlier one of the same settings, would have to move to |
| `Recovery.RecoverStepThen` | native/src/engine.cpp:1065-1095 | recovery steps compose, so any number of interrupted recoveries is one |
| `SettingsRestore.Restore` | native/src/engine.cpp:882-926 | from any disk the exact final disk for every combination of refusals: when done the staged settings are live, and the old ones in the backups directory unless that rename is refused or its place taken; otherwise the old ones are live unless the rollback is refused; if the id named no transaction with a backup, every state leaves the other packages alone, and shows old or new settings complete with the old ones whole somewhere unless the job fails, which is exact where no settings of the package were set aside before |
| `SettingsRestore.OldSettingsSurvive` | native/src/engine.cpp:908-926 | at the end the old settings are whole if and only if the job did not drop them, or an equal copy is elsewhere, or equal ones were put in place |
| `SettingsRestore.WholeAfter` | native/src/engine.cpp:908-926 | which settings of the package are whole at the end, exactly |
| `SettingsRestore.RestoreIsLocal` | native/src/engine.cpp:901 | of every other package a restore with any id leaves exactly what deleting the transaction of that id leaves |
| `SettingsRestore.TakenIdLoses` | native/src/engine.cpp:901 | recovery is stuck, and a job with the same id deletes the only whole copy of settings of another package |
| `SettingsRestore.OccupiedSlotLoses` | native/src/engine.cpp:922-924 | a completed job that loses the old settings because the place for them is taken |
| `SettingsRestore.TemporaryIsGone` | native/src/engine.cpp:899-901 | the settings of `x.vanahub-import` are gone if and only if the job for `x` gets past its first two checks |
| `SettingsRestore.RollBack` | native/src/engine.cpp:915-920 | a refused commit puts the old settings back, or leaves them only in the transaction that is then deleted |
| `SettingsRestore.PutInPlace` | native/src/engine.cpp:914-925 | the new settings are live and the old ones in the backups directory, or deleted if that rename failed |
| `SettingsRestore.ClearTemporary` | native/src/engine.cpp:901 | clearing the temporary directory is unseen by every package but the one that owns that name |
| `SettingsSteps.CommittedIsLocal` | native/src/engine.cpp:914 | the commit rename is seen for the package and the owner of the temporary name only |
| `Histories.CrashAndRecover` | native/src/engine.cpp:1065-1095 | from any disk: a crash at any step, then recoveries that die at any of their steps, then one that ends; if that one completes, every package has a tree that it showed at the crash, and it completes unless the crash left a disk on which recovery can get stuck |
| `Histories.InstallSurvivesCrashes` | native/src/engine.cpp:972-1039 | from any disk on which the id names no transaction with a backup: after a crash at any step of an install and any interrupted recoveries the addon is wholly the old tree, the merged new one with every shipped file, or one set aside before, other packages have a tree they showed before, no settings are lost, and recovery completes unless it could get stuck before |
| `Histories.SettingsSurviveCrashes` | native/src/engine.cpp:882-926 | likewise for a settings restore that does not fail: the settings are wholly old, wholly new or set aside before, and all that were whole still are |
| `Histories.OnlyOldOrNew` | native/src/engine.cpp:1065-1095 | where nothing of a package was set aside before, it shows its live tree alone, so that the two theorems before say old or new |
| `UserFiles.UpdateKeeps` | native/src/engine.cpp:1016-1028 | an update keeps a user file that it does not ship if and only if the copy loop gets to it |
| `UserFiles.DeployKeeps` | native/src/engine.cpp:972-1039 | a completed install or update, from any disk, keeps the file at every step if and only if the copy loop gets to it in a live directory and every tree of the package that is set aside has it |
| `UserFiles.SecondInstallLoses` | native/src/engine.cpp:1033-1037 | after a refused commit and rollback the next install completes without the user file, and recovery deletes the tree that has it |
| `UserFiles.UninstallKeeps` | native/src/engine.cpp:945-953 | every step of an uninstall keeps the file |
| `UserFiles.Run` | native/src/engine.cpp:882-1095 | whatever happens to a disk through jobs of all packages, refused renames, user writes, crashes at any step and recoveries complete, stuck or interrupted, each event leads to a disk that follows in the sense of `UserFiles.RunKeeps` |
| `UserFiles.RunKeeps` | native/src/engine.cpp:882-1095 | over every such run a file at a path that no version ships holds what the user last wrote, wherever recovery may find the tree, as long as before each event its guard holds: the id of a job names no transaction with a backup, no transaction has set a tree of the package aside when one of its own jobs starts, and no copy of a user file is refused |
| `UserFiles.UpdateDropsOldFiles` | native/src/engine.cpp:1017-1023 | files owned by the old version and not shipped by the new one are gone |
| `SignedCache.PointerReadsBack` | native/src/engine.cpp:107-120 | a pointer names the digest it was written with |
| `SignedCache.ReadSmallTextIs` | native/src/engine.cpp:107-112 | exactly the carriage returns and line feeds at the end of a pointer are dropped |
| `SignedCache.Repository.ActivatePointer` | native/src/engine.cpp:114-127 | every state has the old pointer or, once moved, the new one |
| `SignedCache.StageGeneration` | native/src/engine.cpp:135-146 | while a generation is emptied and filled, the pointer and all other generations stay |
| `SignedCache.Prune` | native/src/engine.cpp:148-152 | pruning leaves exactly the new and the previous generation and touches neither at any step |
| `SignedCache.ActivateSignedRepository` | native/src/engine.cpp:129-155 | a completed activation makes current the downloaded parts, whose index hashes to the digest and whose signature is valid, and keeps of the others the previous generation alone; if the current generation verifies, every state shows the old or the new catalog if and only if the new digest differs or nothing was done; if it does not differ, every state has a catalog to find if and only if another generation is good |
| `SignedCache.LoadSignedRepositoryCache` | native/src/engine.cpp:157-185 | what is returned has an index that hashes to its name and a signature that is valid for it, and nothing is returned, with a movable pointer, only if no generation has; prefers the current one, deletes no good generation, and leaves the pointer naming the result |
| `SignedCache.CandidatesAre` | native/src/engine.cpp:160-169 | the candidates are the current name, if well formed, and then the other well-formed directory names, each once |
| `SignedCache.ActivationSurvivesCrash` | native/src/engine.cpp:114-185 | after a crash at any step of an activation the loader returns exactly the old or exactly the new generation |
| `SignedCache.RefreshSurvivesCrash` | native/src/engine.cpp:129-185 | after a crash while an unchanged catalog is activated again the loader returns that one or another that was good, and one if another was good |
| `SignedCache.LoadSurvivesCrash` | native/src/engine.cpp:157-185 | after a crash at any step of the loader a second load finds a catalog if and only if the first could have |
| `Extraction.CheckEntry` | native/src/engine.cpp:452-483 | the checks on one entry, in order, accept exactly the permitted entries |
| `Extraction.FirstPass` | native/src/engine.cpp:446-492 | the first pass accepts an archive if and only if every entry is permitted, every running total is within the limit, the destinations differ up to case and are few enough, and one of them is the entry point |
| `Extraction.SecondPass` | native/src/engine.cpp:494-524 | unpacking succeeds if and only if nothing is cancelled, unwritable or in conflict and every script is clean or allowed; then the list and the staged files are exactly the approved files, in archive order |
| `Extraction.InspectAndExtract` | native/src/engine.cpp:438-525 | the two passes together |
| `Extraction.OwnedAreSafe` | native/src/engine.cpp:458-483 | every owned path is safe and has one of the eleven extensions, or is the engine library where that is allowed, and is never the ownership list |
| `Extraction.OwnedAreDistinct` | native/src/engine.cpp:484-486 | no two owned paths are equal up to case |
| `Extraction.EntriesAreChecked` | native/src/engine.cpp:452-483 | every entry of an accepted archive is readable, safe, no link, not encrypted, supported, within the size and ratio limits and below the archive root; the archive is within the limits on its total and its count |
| `Extraction.ExtensionIs` | native/src/core.cpp:140-149 | the extension is what follows the last dot of the last component, in lower case |
| `Extraction.ExtractedIsInstallable` | native/src/engine.cpp:438-525 | a successful extraction delivers what an install needs |
| `Extraction.ScriptsAreClean` | native/src/engine.cpp:511-515 | no unpacked file of a restricted package that is spelled `.lua` contains a blocked symbol as a word |
| `Extraction.ScanDependsOnSpelling` | native/src/engine.cpp:511-515 | of the files accepted as Lua sources the scan guarantees that the content is clean if and only if the extension is in lower case and not the whole file name |
| `Extraction.UpperCaseIsNotScanned` | native/src/engine.cpp:511 | `Init.LUA` is accepted and not scanned |
| `Extraction.ExpansionIsBounded` | native/src/engine.cpp:467-468 | although the total wraps at 64 bits, an accepted archive with non-negative sizes really stays within the limit |
| `Base64.BufferStep` | native/src/engine.cpp:70-76 | wrapping the 32-bit buffer loses only bits already delivered |
| `Base64.Base64Decode` | native/src/engine.cpp:67-79 | the loop decodes like a queue of exactly the undelivered bits, and returns nothing for text outside the alphabet |
| `Base64.DecodeEncode` | native/src/engine.cpp:67-79 | decoding inverts the encoding of section 4 of RFC 4648 for every byte sequence |
| `LuaLexer.LuaLongBracketLevel` | native/src/core.cpp:32-38 | the scan finds the level of a long bracket opener |
| `LuaLexer.Mask` | native/src/core.cpp:43-46 | blanks exactly the range, keeping line breaks |
| `LuaLexer.ScanSpan` | native/src/core.cpp:49-81 | finds the literal or comment that starts at a position, and its end |
| `LuaLexer.MaskLuaLiterals` | native/src/core.cpp:40-84 | the in-place lexer computes the recursive specification of the masked text and of malformedness |
| `LuaLexer.StringSpanIs` | native/src/core.cpp:49-57 | a string ends at the first quote of its kind with an even number of backslashes before it, and is unclosed if there is none |
| `LuaLexer.StringTokenIs` | native/src/core.cpp:49-57 | a quote starts a string that ends right after the next quote of its kind that no backslash hides, or at the end of the text |
| `LuaLexer.LineCommentIs` | native/src/core.cpp:58-63 | two dashes that no long bracket follows start a comment up to the first line break after them, or to the end of the text |
| `LuaLexer.LongTokenIs` | native/src/core.cpp:58-81 | a long bracket, or a comment that starts with one, ends right after the first closing bracket of its level, or at the end of the text |
| `LuaLexer.PlainIs` | native/src/core.cpp:49-81 | nothing but a quote, two dashes or a long bracket starts a literal or comment |
| `LuaLexer.MaskedShape` | native/src/core.cpp:40-84 | masking keeps the length and every line break, and changes characters only to spaces |
| `LuaLexer.MaskedToken` | native/src/core.cpp:40-84 | a literal or comment is blanked as a whole and everything else is kept |
| `LuaLexer.NoOpenerLeft` | native/src/core.cpp:40-84 | no quote, no `--` and no long bracket opener is left |
| `LuaLexer.MaskedTwice` | native/src/core.cpp:40-84 | masking twice is masking once, and the second pass is never malformed |
| `LuaLexer.MalformedIs` | native/src/core.cpp:40-84 | malformed holds if and only if the lexer comes to a string, long bracket or block comment whose end is nowhere in the rest of the text |
| `LuaDelimiters.BalancedLuaDelimiters` | native/src/core.cpp:86-98 | the stack loop decides the recursive specification |
| `LuaDelimiters.BalancedIsNesting` | native/src/core.cpp:86-98 | exactly the texts derivable in the grammar of three nested brackets are accepted |
| `LuaDelimiters.BalancedJoins` | native/src/core.cpp:86-98 | in front of a balanced text only the rest decides |
| `LuaDelimiters.BalancedWraps` | native/src/core.cpp:86-98 | around a balanced text exactly the three pairs of brackets are accepted, and a bracket alone is not |
| `LuaDelimiters.BalancedIgnoresOthers` | native/src/core.cpp:86-98 | texts with the same brackets get the same answer |
| `LuaTableKeys.MaskLuaTableKeys` | native/src/core.cpp:100-116 | rewriting the buffer while reading it blanks exactly the keys of the original text, all at once |
| `LuaTableKeys.KeyIs` | native/src/core.cpp:100-116 | a place belongs to a key if and only if it is in a word with `{` or `,` in front and `=` behind it and only white space between |
| `LuaTableKeys.WordIsKey` | native/src/core.cpp:106-112 | the test on the rewritten buffer decides whether the word is a key of the original |
| `LuaTableKeys.NotSpaceBefore` | native/src/core.cpp:109-112 | a blanked key is followed by its `=`, which stops the backward scan of a later word |
| `LuaTableKeys.NoKeyLeft` | native/src/core.cpp:100-116 | blanking leaves no key behind |
| `LuaTableKeys.BlankedTwice` | native/src/core.cpp:100-116 | blanking twice is blanking once |
| `LuaScan.FindWord` | native/src/core.cpp:175-193 | the search loop returns the first whole-word occurrence |
| `LuaScan.FindLongLine` | native/src/core.cpp:195-206 | the line loop returns the first place from which more than 4000 characters run without a line break, which starts a line |
| `LuaScan.WordAtIs` | native/src/core.cpp:179-183 | an occurrence is a whole word if and only if neither a letter, a digit nor an underscore is next to it |
| `LuaScan.LineAtIs` | native/src/core.cpp:118-120 | in a text below the 32-bit limit a place is on the line after as many line breaks as stand in front of it |
| `LuaScan.VisibleIs` | native/src/core.cpp:275-292 | what is scanned is the text with literals and comments blanked, and the table keys of that |
| `LuaScan.ScanLua` | native/src/core.cpp:172-208 | the findings are the blocked symbols in table order, the environment check and the long line |
| `LuaScan.ScanSetting` | native/src/core.cpp:275-292 | one finding for a malformed or unbalanced text, else the findings on the visible text and the `require` check |
| `LuaScan.VerdictIsExact` | native/src/core.cpp:118-292 | for well-formed text a blocked symbol is reported on a line if and only if its first whole-word appearance outside literals, comments and table keys, ignoring case, is on that line of the original text; `require`, `_g` and over-long lines are reported if and only if they are there |
| `LuaScan.MalformedIsReported` | native/src/core.cpp:275-283 | a text is rejected as malformed, with nothing else reported, if and only if a literal or block comment is never closed or the brackets outside of them do not nest |
| `LuaScan.NothingMissed` | native/src/core.cpp:172-190 | every blocked symbol that appears is reported |
| `LuaScan.NothingRepeated` | native/src/core.cpp:172-190 | each at most once |
| `LuaScan.ReportedIsThere` | native/src/core.cpp:172-190 | what is reported stands at that place in the original text |
| `LuaScan.LongLinesAreOriginal` | native/src/core.cpp:195-206 | blanking neither creates nor hides an over-long line |
| `LuaScan.AppearanceIsFound` | native/src/core.cpp:172-190 | scanning a text as it stands reports something whenever a blocked symbol appears |
| `LuaValues.TrimIs` | addon/vanahub/versions/0.1.0/profiles.lua:66 | the trimming pattern leaves neither end white, and changes exactly the texts that have a white end |
| `LuaValues.TrimKeeps` | addon/vanahub/versions/0.1.0/profiles.lua:66 | only white space is cut off |
| `LuaValues.IdRulesAgree` | addon/vanahub/versions/0.1.0/profiles.lua:30-33 | the Lua rule for package ids accepts exactly what the engine's rule accepts |
| `InstalledOrder.SortedInstalledIds` | addon/vanahub/versions/0.1.0/profiles.lua:17-28 | every installed id, in the order of the comparison |
| `InstalledOrder.ListingIsUnique` | addon/vanahub/versions/0.1.0/profiles.lua:20-26 | the comparison leaves only one such list, whatever order the table is walked in |
| `InstalledOrder.PrecedesIs` | addon/vanahub/versions/0.1.0/profiles.lua:20-26 | the first difference of the folded display names decides, the shorter name first, and for equal names that of the ids |
| `Profiles.NormalizedAddonsOk` | addon/vanahub/versions/0.1.0/profiles.lua:35-63 | whatever was saved, a normalized list has well-formed entries, no addon twice and every installed addon |
| `Profiles.NormalizedIsValid` | addon/vanahub/versions/0.1.0/profiles.lua:84-122 | whatever was saved, the loaded document meets the invariant: a profile, unique ids, trimmed names unique up to case, a valid active id, and auto-load only of installed addons other than the manager |
| `Profiles.EntryReadsBack` | addon/vanahub/versions/0.1.0/profiles.lua:38-57 | an entry survives saving and loading if and only if it is well formed |
| `Profiles.SavedDocumentIsFixed` | addon/vanahub/versions/0.1.0/profiles.lua:84-122 | for safe installed ids, a document survives saving and loading if and only if it meets the invariant |
| `ProfileLoading.LoadedIds` | addon/vanahub/versions/0.1.0/profiles.lua:35-63 | a loaded list has the installed addons and, for version 3, every listed one whose id is safe |
| `ProfileLoading.LoadedIs` | addon/vanahub/versions/0.1.0/profiles.lua:84-122 | a document of no known version loads as one default profile with nothing switched on, and one before version 3 keeps no addon that is not installed |
| `ProfileLoading.OldDocumentLoads` | addon/vanahub/versions/0.1.0/profiles.lua:84-122 | a version 2 document loads with its profiles, their order and names, its active profile, and of each list exactly the entries of installed addons |
| `ProfileNames.UniqueName` | addon/vanahub/versions/0.1.0/profiles.lua:65-74 | the requested name if it is free up to case, else the first free numbered one; the loop ends because each try uses up another profile |
| `ProfileNames.NextId` | addon/vanahub/versions/0.1.0/profiles.lua:76-82 | the first free numbered id, by the same argument |
| `ProfileNames.UniqueNameIsFree` | addon/vanahub/versions/0.1.0/profiles.lua:65-74 | the name found is free up to case, not empty and trimmed |
| `ProfileNames.NextIdIsFree` | addon/vanahub/versions/0.1.0/profiles.lua:76-82 | the id found is in no profile and not empty |
| `ProfileNames.UniqueNameMeans` | addon/vanahub/versions/0.1.0/profiles.lua:65-74 | the trimmed name, or `Profile`, or one of them with the least free number from 2 on |
| `ProfileNames.NextIdMeans` | addon/vanahub/versions/0.1.0/profiles.lua:76-82 | `profile-` with the least free number from 1 on |
| `ProfileEdits.WithInstalledIsValid` | addon/vanahub/versions/0.1.0/profiles.lua:257-271 | recording an installed addon keeps the invariant if and only if its id is safe |
| `ProfileEdits.WithoutInstalledIsValid` | addon/vanahub/versions/0.1.0/profiles.lua:273-279 | removing an installed addon keeps the invariant |
| `ProfileEdits.UninstallUndoesInstall` | addon/vanahub/versions/0.1.0/profiles.lua:257-279 | removing takes back exactly what adding a new addon did |
| `ProfileEdits.WithInstalledIs` | addon/vanahub/versions/0.1.0/profiles.lua:257-271 | a profile that lists the addon is unchanged, any other gets one more entry at the end, with auto-load in the active profile alone and never for the manager |
| `ProfileEdits.WithoutIs` | addon/vanahub/versions/0.1.0/profiles.lua:273-279 | of a list without repeats exactly the entry of that addon is gone |
| `ProfileEdits.RemovedIs` | addon/vanahub/versions/0.1.0/profiles.lua:243-255 | the profile after a removed active one becomes active, or the one before if it was the last |
| `ProfileEdits.UnsafeIdIsLost` | addon/vanahub/versions/0.1.0/main.lua:124-131 | an addon recorded under an unsafe id is in every profile now and in none after the next load |
| `ProfileEdits.RemovedIsValid` | addon/vanahub/versions/0.1.0/profiles.lua:243-255 | removing a profile keeps the invariant, in particular a valid active id |
| `ProfileEdits.RenamedIsValid` | addon/vanahub/versions/0.1.0/profiles.lua:228-241 | renaming to a name no other profile has keeps the invariant |
| `ProfileEdits.SwapTwice` | addon/vanahub/versions/0.1.0/profiles.lua:281-286 | moving an addon and moving it back changes nothing |
| `ProfileEdits.ImportKeepsAll` | addon/vanahub/versions/0.1.0/profiles.lua:124-177 | a valid manifest's addons are all imported, in its order |
| `ProfileEdits.ImportedEntryIs` | addon/vanahub/versions/0.1.0/profiles.lua:35-63 | nothing in a valid manifest entry is lost, except auto-load of what is not installed |
| `ProfileEdits.ImportIsChecked` | addon/vanahub/versions/0.1.0/profiles.lua:142-177 | which manifests are imported, field by field, in both directions |
| `ProfileDocuments.NormalizeAddons` | addon/vanahub/versions/0.1.0/profiles.lua:35-63 | the loop with its seen-table computes the normalized list |
| `ProfileDocuments.ProfileDocument.constructor` | addon/vanahub/versions/0.1.0/profiles.lua:84-122 | the new object is the normalized document and meets the invariant |
| `ProfileDocuments.ProfileDocument.Add` | addon/vanahub/versions/0.1.0/profiles.lua:216-226 | appends one profile with a fresh id, a free name and the entries of the active profile, auto-load only when duplicating, and activates it |
| `ProfileDocuments.ProfileDocument.Rename` | addon/vanahub/versions/0.1.0/profiles.lua:228-241 | which of the four answers is given; a success changes the name of that profile and nothing else |
| `ProfileDocuments.ProfileDocument.Remove` | addon/vanahub/versions/0.1.0/profiles.lua:243-255 | succeeds if and only if another profile is left and the id exists; exactly that profile is gone, and if it was active the next one is, or the one before the last |
| `ProfileDocuments.ProfileDocument.Install` | addon/vanahub/versions/0.1.0/profiles.lua:257-271 | a profile that lists the addon is unchanged; any other gains exactly one last entry, with auto-load if and only if it is asked for, the addon is not the manager and the profile is the active one; ids, names, order and the active profile stay; the invariant holds after if and only if the id is safe |
| `ProfileDocuments.ProfileDocument.Uninstall` | addon/vanahub/versions/0.1.0/profiles.lua:273-279 | of every profile exactly the entry of that addon is gone, and nothing else changes |
| `ProfileDocuments.ProfileDocument.Move` | addon/vanahub/versions/0.1.0/profiles.lua:281-286 | swaps two entries if both positions exist, else changes nothing |
| `ProfileDocuments.ProfileDocument.Import` | addon/vanahub/versions/0.1.0/profiles.lua:124-140 | a valid manifest becomes a new active profile, an invalid one changes nothing |
| `ProfileDocuments.ProfileDocument.SetAutoLoad` | addon/vanahub/versions/0.1.0/main.lua:1106-1109 | changes one flag and keeps the invariant |
| `ProfileDocuments.Session` | addon/vanahub/versions/0.1.0/main.lua:59-102 | over every sequence of edits from whatever was on disk, every document meets the invariant and survives saving and loading |
| `AutoLoad.EligibleIs` | addon/vanahub/versions/0.1.0/main.lua:508-526 | the queue keeps the profile's order, and queue and failures together are the wanted addons |
| `AutoLoad.EligibleMembers` | addon/vanahub/versions/0.1.0/main.lua:513-523 | an addon is queued if and only if it is ticked, is not the manager, is installed under a safe id with its list on disk, and is not revoked |
| `AutoLoad.RejectedMembers` | addon/vanahub/versions/0.1.0/main.lua:513-523 | every other ticked addon is reported, as revoked or as not installed |
| `AutoLoad.LeadingLoadedIs` | addon/vanahub/versions/0.1.0/main.lua:533-536 | the addons counted as loaded already are loaded, and the next one is not |
| `AddonActions.TickAction` | addon/vanahub/versions/0.1.0/main.lua:244-259 | a command is over if and only if its effect is seen or five seconds have passed, and confirmed if and only if it is seen |
| `AutoLoad.Startup.TickAddonAction` | addon/vanahub/versions/0.1.0/main.lua:244-259 | a command of the startup is counted once when it is over, as loaded or failed |
| `AutoLoad.Startup.BeginStartup` | addon/vanahub/versions/0.1.0/main.lua:508-526 | queue, failures and total as the profile and the installed addons determine them |
| `AutoLoad.Startup.TickStartup` | addon/vanahub/versions/0.1.0/main.lua:528-548 | counts exactly the addons at the head of the queue that are loaded already and sends the load command of the next one, or completes; the books stay balanced and the end comes closer whenever nothing is in flight |
| `AutoLoad.Startup.IssuedInOrder` | addon/vanahub/versions/0.1.0/main.lua:528-537 | the commands sent are a subsequence of the active profile, no addon twice |
| `AutoLoad.Startup.CompletedAccounts` | addon/vanahub/versions/0.1.0/main.lua:528-548 | at completion loaded, already loaded and failed sum to the total |
| `AutoLoad.Run` | addon/vanahub/versions/0.1.0/main.lua:508-548 | both over every run of frames, answers, clock values and clicks |
| `ImportDriver.Import.UserRefreshes` | addon/vanahub/versions/0.1.0/main.lua:180-190 | a catalog is fetched whenever no other job is in flight, a command notwithstanding |
| `ImportDriver.Import.CompleteOperation` | addon/vanahub/versions/0.1.0/main.lua:645-717 | which addons are installed, which entries are adopted during the unloading, what is reported and which phase follows, for every kind of finished job |
| `ImportDriver.Import.RunInstalling` | addon/vanahub/versions/0.1.0/main.lua:434-461 | starts the install of the first remaining entry that is not installed, chosen, trusted, in the catalog and not refused, each one passed failing one of these, and reports why; when none is left, lists exactly the installed addons with settings to restore |
| `ImportDriver.NextInstallIs` | addon/vanahub/versions/0.1.0/main.lua:435-453 | the next entry installed is missing, chosen and trusted and its package can be installed, and none before it is |
| `ImportDriver.InstallProblemsAre` | addon/vanahub/versions/0.1.0/main.lua:438-452 | which of the four problems is reported of an entry, and when |
| `ImportDriver.Import.RunUnloading` | addon/vanahub/versions/0.1.0/main.lua:462-477 | an addon that is still loaded after its unload command keeps its settings; the first addon of the queue that is loaded is told to unload, none before it being loaded, and restoring begins when none is |
| `ImportDriver.ToUnloadMembers` | addon/vanahub/versions/0.1.0/main.lua:455-460 | the addons to be unloaded are exactly the installed ones with settings |
| `ImportDriver.NextChecked` | addon/vanahub/versions/0.1.0/main.lua:470-475 | after the next check every addon whose settings are to be restored is still pending, was found not loaded or was adopted meanwhile |
| `ImportDriver.AdoptedChecked` | addon/vanahub/versions/0.1.0/main.lua:124-131 | what a fetched catalog adopts is never checked, and everything else stays as checked as before |
| `ImportDriver.AdoptionIsUnchecked` | addon/vanahub/versions/0.1.0/main.lua:124-131 | an adopted entry with settings is neither pending nor checked |
| `ImportDriver.Import.RunRestoring` | addon/vanahub/versions/0.1.0/main.lua:478-505 | starts the first remaining restore of settings that are chosen, not skipped, of an installed addon and not refused, each entry passed failing one of these; when none is left, imports the profile once and cleans up |
| `ImportDriver.Import.FinishImport` | addon/vanahub/versions/0.1.0/main.lua:491-504 | auto-load survives only for installed addons of the expected source |
| `ImportDriver.Import.Advance` | addon/vanahub/versions/0.1.0/main.lua:421-506 | phases never go back, installing ends only when nothing is left to install, and a frame that waits for nothing leaves a later phase or less to do in the same one |
| `ImportDriver.Import.Render` | addon/vanahub/versions/0.1.0/main.lua:1178-1182 | the same for a whole frame; from the first install on something is in flight between frames: the job of the phase, or while unloading a command, a catalog fetch of the user, or both |
| `ImportDriver.Run` | addon/vanahub/versions/0.1.0/main.lua:408-506 | over every run, catalogs fetched by the user at any time included: each entry is installed at most once, and only if chosen and trusted; each is restored at most once, and only if chosen; a restored entry was checked, and not loaded then, if and only if no catalog fetched during the unloading adopted it; the profile is imported exactly once, and the frames that do not wait are bounded |
| `ImportDriver.RestoresUnchecked` | addon/vanahub/versions/0.1.0/main.lua:462-490 | a run in which an adopted entry is restored although its addon is loaded |
| `SelfUpdate.Manager.Stage` | native/src/engine.cpp:995-1014 | a complete version directory is renamed into place before a marker names it; the marker names a whole version if and only if what was written of its text does; refusals leave the markers and the versions as they were |
| `SelfUpdate.Manager.Activate` | addon/vanahub/vanahub.lua:22-33 | the marker is replaced, kept or, between removal and rename, missing, as the failures say; a replaced one names a whole version if and only if what was written does |
| `SelfUpdate.Manager.Launch` | addon/vanahub/vanahub.lua:18-41 | starts exactly what the active marker names, or the shipped version without one, if that is a version name and its entry file exists, and rejects it if it is no version name; from markers that name whole versions, the version to start is whole if and only if the new marker, where one is written, is not torn |
| `SelfUpdate.NameIsRead` | addon/vanahub/vanahub.lua:9-15 | a marker reads back as the version it was written with |
| `SelfUpdate.CutIsRead` | addon/vanahub/vanahub.lua:9-15 | a marker that was cut short reads back as the beginning of the name, which is a version name if and only if it is not empty |
| `SelfUpdate.StaysDown` | addon/vanahub/vanahub.lua:36-37 | once the active marker is no version name and nothing is pending, every launch is rejected and changes nothing |
| `SelfUpdate.EmptyMarkerBlocks` | addon/vanahub/vanahub.lua:25-37 | a launch that can open but not write the marker is rejected, and so is every later one |
| `SelfUpdate.Run` | native/src/engine.cpp:995-1014 | over every interleaving of staging, launches and crashes the versions renamed into place are whole, and the markers name only such versions as long as no name is cut short when a marker is written |
| `SemVer.GreaterIrreflexive` | tools/verify_submission.py:20-47 | no version is greater than itself |
| `SemVer.GreaterTransitive` | tools/verify_submission.py:20-47 | the order is transitive on all versions, leading zeros included |
| `SemVer.PrereleaseIs` | tools/verify_submission.py:38-47 | the loop is the rule of section 11 of SemVer 2.0.0: the first differing identifier decides, then the length |
| `SemVer.NumbersDecide` | tools/verify_submission.py:20-37 | the first of the three numbers that differs decides, and then a version without a prerelease is the greater one |
| `SemVer.IdentifiersCompare` | tools/verify_submission.py:38-47 | numbers compare by value and come before words, words in byte order |
| `SemVer.StandardExample` | tools/verify_submission.py:20-47 | the chain of versions in section 11 of SemVer 2.0.0 |
| `SemVer.Comparable` | tools/verify_submission.py:20-47 | neither of two versions is greater if and only if they agree in everything but build metadata and, at their first difference, the spelling of a number |
| `SemVer.GreaterTotal` | tools/verify_submission.py:20-47 | without leading zeros the order is total up to build metadata |
| `SemVer.LeadingZerosTie` | tools/verify_submission.py:41-43 | with leading zeros it is not |
| `Redaction.RedactedDoesNotLeak` | tools/profile_scan.py:201-214 | no sensitive scalar is left unredacted at any depth |
| `Redaction.UnchangedIffNoLeak` | tools/profile_scan.py:201-214 | a value is unchanged if and only if it had nothing to redact |
| `Redaction.RedactTwice` | tools/profile_scan.py:201-214 | redacting twice is redacting once |
| `Redaction.RedactedAt` | tools/profile_scan.py:201-214 | the same places exist before and after, each with what stood there or, exactly for sensitive scalars, the placeholder |
| `Redaction.MemberIsRedacted` | tools/profile_scan.py:201-214 | a string or number under a key of the policy is replaced, and no boolean, null or value under another key is |
| `Redaction.FoldedIs` | tools/profile_scan.py:196-198 | folding a key drops everything but letters and digits, and the case of letters |
| `Redaction.RedactKeepsShape` | tools/profile_scan.py:201-214 | keys, their order and the lengths of arrays stay |
| `Redaction.FindingsRepeat` | tools/profile_scan.py:206-208 | redacting again reports the same locations again |
| `Redaction.LocationsAre` | tools/profile_scan.py:201-213 | a location names the keys and positions on the way |
| `Redaction.ReportsIffSensitive` | tools/profile_scan.py:201-214 | nothing is reported if and only if there is no sensitive scalar, redacted or not |

## Left out

- Networking, DNS checks, cryptography, the ZIP reader and JSON decoding and encoding: downloads are arbitrary, hash and signature are arbitrary functions, an archive is the list of its entries, and decoded JSON is taken to be what was encoded.
- Threads: one mutation lock serialises the jobs, so one job runs at a time.
- Windows paths: case-insensitive lookup, reparse points and the search of the settings directory; the settings directory of a package is fixed by its id.
- Directories without files: trees are maps from file paths to contents, so empty directories are not seen, and a conflict with one counts as an entry that cannot be written.
- Errors of `remove_all` and of writing the journal: deletions complete unless the process dies, and a journal is complete before the first rename.
- The downloaded archive inside the transaction directory, and the wording of messages.
- The remaining engine jobs (exporting, inspecting and discarding profile archives, fetching media) and the checks of `scan_setting` before its Lua branch: single conditions that one reading settles.
- The fields of a manifest beyond what an import uses, catalog validation and repository lists.
- Drawing, chat commands and textures: user actions appear as events where the window enables them.
- ProfileDocuments.Session: starts from installed addons with safe ids, which loading guarantees by dropping the others and those without an ownership list; which of them those are is an input.
- Identity of Lua tables: profiles are values of the document, so sharing of a `source` table between copies is not seen.
- The regular expressions of the Python tools: a version is given by its matched groups, `require` by the language of its expression, and XML, INI and Lua redaction are not modelled.
- Redaction.ReportsIffSensitive: keys are folded as ASCII, so a key that Unicode case folding turns into ASCII letters is not covered.
- SettingsRestore.Restore: does not promise old-or-new in the failing cases described above, because the code deletes the only copy there; where other transactions hold settings of the same package, the condition is only shown to suffice. A job whose id names a transaction with a backup gets an exact final disk but no promise about the states in between.
- SelfUpdate.Manager.Stage: starts from the staged directory; extraction and the transaction around it are those of `Extraction` and `Installation`.
- UserFiles.RunKeeps: user writes happen between jobs, and paths contain no line break and do not conflict as file and directory, as the merge needs. That its guard is needed is shown for single jobs, by `UserFiles.DeployKeeps` and `Installation.InstallIsLocal`.
- Ownership.MergeKeepsUserFiles: a refused copy leaves nothing at its destination; an error of the directory iterator itself is not modelled.
- Extraction.SecondPass: a directory entry creates nothing in the tree, and an exception while writing ends the job like a failed write.
- ImportDriver.Import.CompleteOperation: leaves out the profile list, which `ProfileDocuments.ProfileDocument.Install` covers, and repositories other than the addons found installed.
