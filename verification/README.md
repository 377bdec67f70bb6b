# OpenNexus core models

Dafny models of the parts of OpenNexus whose correctness depends on several steps
together, with proofs of what those parts promise. `dafny verify dfyconfig.toml`
checks everything.

| files | models |
|---|---|
| `ReleaseModel`, `ReleaseInvariant`, `ReleaseSteps`, `ReleaseBackup`, `ReleasePublisher`, `ReleaseRuns` | the crash-recoverable release publisher: remote tag, releases and assets, the durable journal, the backup directory |
| `SourceArchive` | the fixed source archive of a Git tree and the check of such archives |
| `EditDistance`, `SpeakerMapping`, `Diarisation`, `SpeakerScore` | the transcript scorer |
| `AttachmentUpload` | the resumable, idempotent attachment upload |
| `RequestOverrides` | merging declarative request rules into a payload |
| `HostRpc` | the Host pipe shared by many callers and one listener |
| `OperationLog` | the bounded log queue and its writer thread |
| `TextTokens`, `NoteIndex`, `NoteHistory` | search tokens, and the notes, blocks and full-text tables built on them |
| `EventStream` | subscribe, replay and follow the events of a benchmark run |
| `MarkerScan` | the block-wise search for markers in a large file |
| `Wrappers`, `Collections` | shared datatypes and facts |

## How the models are built

- **Publisher.** `ReleasePublisher.Publisher` is a class with the source's methods. Every
  request may be lost before or after it takes effect, an interrupted upload may leave an
  unfinished asset with any bytes, and any journal or file step may be the last one of the
  process. `ReleaseInvariant.Inv` holds after every single step, so it also holds wherever
  a run stops. `reliable` switches faults off for the convergence results. Every remote write
  is kept in a history with the length the journal had when it was sent.
- **Scorer.** Times are whole ticks. `Diarisation` says what each quantity means tick by
  tick, without intervals or tables; `SpeakerScore` proves that the loops compute it.
- **Concurrent parts** (`HostRpc`, `OperationLog`, `EventStream`) are state machines whose
  steps are what happens under one hold of a lock, or one queue operation. A run is any
  sequence of enabled steps.
- **Digests** are represented by what they are taken of, which makes them injective. For Git
  blobs, whose digest covers a length header, injectivity is proved.

## Findings

- `backup` keeps every original under its own name beside `release.json` and
  `<name>.incomplete`, so the copy of an original called `<x>.incomplete` stands where the
  download of `<x>` goes. The plan's name check accepts such names. Call it a descent when
  `<x>.incomplete` is listed before `<x>`, and count descents down a chain of such names.
  - *Lost copies.* After `n` backups without faults exactly the originals at a descent with at
    least `n` descents in their chain are missing (`ReleaseBackup.LeftOutExactly`), although
    every backup reports success. A plan backs up twice before it deletes anything, so nothing
    is lost with at most one descent in a chain: one pair heals (`PairHeals`), three names in a
    row do not (`TripleLosesACopy`), nor do two pairs of one chain that stand apart in the list
    (`PairsApartLoseACopy`). `ReleaseRuns.InterruptedRuns` proves that no crashing run loses a
    copy of a plan with `HealingNames`; `ReleaseRuns.LosesACopy` proves that for every other
    plan a fault-free stage and replace delete an original whose copy is missing. The condition
    is exact.
  - *Stuck plans.* With a single descent, a download of `<x>` that breaks off leaves its
    remains under the name of the earlier original, and every later backup fails
    (`ReleaseRuns.GetsJammed`, `ReleaseRuns.NeverConverges`); an original called `release.json`
    has the same effect without any fault. So a plan converges after every interruption if and
    only if it has no descent and no `release.json`, which is `SafeNames`, the condition of
    `ReleaseRuns.Converges`.
- The two upload endpoints share one key, and the single-request endpoint looks at the row and
  the destination but not at the partial file. A whole file that contradicts an accepted chunk
  thus becomes the destination beside the partial file, and a later chunk is compared with that
  file: two acknowledged chunks can disagree where they overlap
  (`AttachmentUpload.TwoFilesDisagree`). This is the only way: every other call keeps the
  upload consistent, and a whole file does so if and only if it does not contradict an accepted
  chunk of the partial file it comes to stand beside (`AttachmentUpload.Upload.UploadWhole`,
  `AttachmentUpload.Perform`). In a consistent state all chunks of one file agree
  (`AttachmentUpload.HeldAgree`); from every other state without a call in flight one more
  chunk is acknowledged that disagrees with an accepted one (`AttachmentUpload.ForkDisagrees`).
- A benchmark run whose terminal event could not be stored gets one later, in storage only. A
  stream that is live then ends without it (`EventStream.TerminalMissed`);
  `EventStream.EndsWithEverything` says exactly when a stream delivers everything.

## Model

| member | source | states |
|---|---|---|
| ReleaseRuns.Converges | scripts/github_release.py:259-391 | for every plan with safe names, after any finite sequence of interrupted runs of any command, once unfinished uploads are five minutes old, one fault-free stage and one publish or replace end with the remote showing exactly the plan (tag, notes, stage, latest mark, asset set and bytes) and no original left |
| ReleaseRuns.InterruptedRuns | scripts/github_release.py:259-391 | for every plan, after any interrupted runs in any order with any local files, the invariant, the safety of the originals and the announcement of every write hold |
| ReleaseRuns.RunsAfterCompletion | scripts/github_release.py:259-391 | once a plan is complete no further run of any command, faulty or not, changes anything at the service |
| ReleaseRuns.LosesACopy | scripts/github_release.py:245-256 | for every plan whose names do not heal, one stage and one replace without any fault complete the plan and leave an original deleted without its copy |
| ReleaseRuns.GetsJammed | scripts/github_release.py:247-256 | for every plan with unsafe names, a stage in which one download breaks off before its first byte (or an original called release.json alone) blocks the backup directory before anything changes at the service |
| ReleaseRuns.JammedRuns | scripts/github_release.py:233-257 | from a blocked directory no sequence of runs, faulty or not, ever changes anything at the service |
| ReleaseRuns.NeverConverges | scripts/github_release.py:233-257 | for every plan with unsafe names one interruption is followed by no completion, whatever runs come after it: the condition of Converges is exact |
| ReleaseRuns.RunOnce | scripts/github_release.py:259-391 | one run of one command keeps the invariant; fault-free stage prepares all assets, fault-free publish or replace then completes, with the backup directory as computed; a stage removes or changes nothing but unfinished uploads of at least five minutes; a complete plan and a blocked one are left alone |
| ReleaseRuns.OriginalsAreSafe | scripts/github_release.py:200-257 | a missing original implies that all planned assets are in place with their bytes, the tag moved, the notes published and, if the names heal, its backup saved; without its delete intent it is present with its bytes under its own or its preserved name |
| ReleaseRuns.WritesAreAnnounced | scripts/github_release.py:259-369 | every remote write directly follows an intent of its own in the journal, which no other write uses; only originals and announced uploads are renamed or deleted, and a deleted upload was unfinished and at least five minutes old when its intent was recorded; no second release, no second complete upload of an asset |
| ReleaseRuns.WaitForUploads | scripts/github_release.py:284-284 | a finite wait makes every unfinished upload old enough to be replaced |
| ReleaseInvariant.InitialInv | scripts/release_plan.py:302-315 | the invariant holds before the first run, for a new tag and for a captured original |
| ReleaseInvariant.LogKeepsInv | scripts/release_plan.py:309-312 | recording an entry that is sound in the present state keeps the invariant |
| ReleaseModel.FirstIsEarliest | scripts/github_release.py:169-176 | the first recorded intent of a kind is the earliest, which the age checks rely on |
| ReleaseSteps.CreateKeepsInv | scripts/github_release.py:263-266 | an announced release creation keeps the invariant when no release has the tag |
| ReleaseSteps.UploadKeepsInv | scripts/github_release.py:289-295 | an announced upload, complete or not, keeps the invariant when no upload of that asset exists |
| ReleaseSteps.DeleteUnfinishedKeepsInv | scripts/github_release.py:283-288 | deleting an announced unfinished upload keeps the invariant |
| ReleaseSteps.MoveTagKeepsInv | scripts/github_release.py:311-317 | an announced tag move keeps the invariant |
| ReleaseSteps.PreserveKeepsInv | scripts/github_release.py:320-339 | renaming an original to its preserved name keeps the invariant; that name is free and nothing can have been settled yet |
| ReleaseSteps.PromoteKeepsInv | scripts/github_release.py:340-346 | renaming a complete upload to its free canonical name keeps the invariant |
| ReleaseSteps.PublishKeepsInv | scripts/github_release.py:347-357 | publishing notes, commit and stage keeps the invariant |
| ReleaseSteps.DeleteOriginalKeepsInv | scripts/github_release.py:359-368 | deleting an original after its intent keeps the invariant, because an intent exists only in a settled state |
| ReleaseSteps.DiskKeepsInv | scripts/github_release.py:233-257 | changes of the backup directory keep the invariant as long as no level of saved originals is lost |
| ReleaseSteps.DownloadKeepsInv | scripts/github_release.py:247-254 | whatever an interrupted download leaves keeps the invariant |
| ReleaseSteps.MoveKeepsInv | scripts/github_release.py:255-255 | moving a checked download into place keeps the invariant |
| ReleaseBackup.LeftOutExactly | scripts/github_release.py:240-256 | what is missing after n fault-free backups of a fresh directory: exactly the originals listed before the one they stand in the way of with n descents below them |
| ReleaseBackup.BackupsHoldAll | scripts/github_release.py:240-256 | n fault-free backups succeed and hold every original if and only if none is the metadata file and none has n descents below it |
| ReleaseBackup.PairHeals | scripts/github_release.py:245-256 | with one such pair the first backup reports success without a copy and the second one adds it |
| ReleaseBackup.TripleLosesACopy | scripts/github_release.py:245-256 | with three names in a row two successful backups still miss a copy |
| ReleaseBackup.PairsApartLoseACopy | scripts/github_release.py:245-256 | so they do with two pairs of one chain that do not follow each other in the list |
| ReleaseBackup.DownloadKeeps | scripts/github_release.py:247-254 | an interrupted download of a missing original puts only copies above it at stake |
| ReleaseBackup.MoveKeeps | scripts/github_release.py:255-256 | so does a finished one, and the backup has then dealt with one more original |
| ReleaseBackup.StaysBlocked | scripts/github_release.py:247-256 | dealing with an earlier original never clears a blocking file |
| ReleaseBackup.InterruptionBlocks | scripts/github_release.py:247-256 | a first backup that breaks off in the download of the later name of a pair leaves a blocking file |
| ReleaseBackup.SafeOrBlocked | scripts/github_release.py:245-256 | names are unsafe exactly when one is the metadata file or stands before the one it is in the way of |
| ReleaseBackup.NextIsHeld | scripts/github_release.py:256-256 | with safe names, in any directory interrupted runs can leave, a file met in order is the copy it should be |
| ReleasePublisher.Publisher.Record | scripts/release_plan.py:309-312 | the journal is the old one or the old one with the entry, never anything else; the invariant stays, and the entry is then one that no write has used |
| ReleasePublisher.Publisher.CheckLease | scripts/github_release.py:133-141 | succeeds, faults aside, exactly when the tag is untouched or was moved to the plan's commit after this plan's own intent; the lease is always the original ref |
| ReleasePublisher.Publisher.FindRelease | scripts/github_release.py:143-177 | finds the release with the tag if there is one, drafts included, and refuses no state of this plan's own runs |
| ReleasePublisher.Publisher.CheckOwnRelease | scripts/github_release.py:168-176 | accepts a release exactly when the journal announced it with this commit, body, stage and age |
| ReleasePublisher.Publisher.Assets | scripts/github_release.py:179-188 | the listing by name is exactly the remote assets |
| ReleasePublisher.Publisher.CheckOriginal | scripts/github_release.py:200-223 | accepts exactly the releases whose asset names are all expected, whose notes are the original's or the announced ones, and whose originals are all accepted |
| ReleasePublisher.Publisher.CheckOld | scripts/github_release.py:215-223 | accepts an original exactly when it is there with its bytes under its own or its announced preserved name, or is gone after its delete intent |
| ReleasePublisher.Publisher.CheckNames | scripts/github_release.py:201-207 | accepts exactly when every asset name is planned, original or announced |
| ReleasePublisher.OwnStateAccepted | scripts/github_release.py:200-223 | no state that this plan's own interrupted runs can leave is refused |
| ReleasePublisher.LeaseIsHeld | scripts/github_release.py:133-141 | in no such state is the tag refused |
| ReleasePublisher.Publisher.Fetch | scripts/github_release.py:247-255 | leaves the original in place, or only the download file changed |
| ReleasePublisher.Publisher.SaveOriginal | scripts/github_release.py:245-256 | deals with one original: gains it without losing a level, fails on a blocking file, and without faults does exactly what the simple function of the directory says |
| ReleasePublisher.Publisher.Backup | scripts/github_release.py:233-257 | success gains a level of saved originals; without faults the directory is exactly the computed one; with a blocking file it always fails; nothing remote changes |
| ReleasePublisher.Publisher.SaveOriginals | scripts/github_release.py:245-256 | the loop over the originals, faulty, fault-free or breaking off at one download |
| ReleasePublisher.Publisher.EnsureRelease | scripts/github_release.py:260-269 | afterwards the one release with the tag is recorded; an existing one is taken over, never duplicated |
| ReleasePublisher.Publisher.CheckCandidate | scripts/github_release.py:279-288 | an upload is a match exactly when complete with the planned bytes, replaceable exactly when unfinished, announced and five minutes old, and refused otherwise |
| ReleasePublisher.Publisher.ClearCandidate | scripts/github_release.py:279-288 | a complete upload is kept as it is; an unfinished one is removed only when five minutes old, and a younger one is refused with nothing recorded or changed |
| ReleasePublisher.Publisher.StageAsset | scripts/github_release.py:273-295 | afterwards the asset is completely uploaded once; one that already was causes no remote write; no original is touched, and nothing but an unfinished upload of at least five minutes is removed |
| ReleasePublisher.Publisher.StageCandidate | scripts/github_release.py:279-295 | keeps a matching upload, replaces an old unfinished one, or uploads what is missing |
| ReleasePublisher.Publisher.UploadMissing | scripts/github_release.py:289-295 | a local file that no longer has the planned bytes is refused before anything is recorded or sent; otherwise the asset is uploaded once |
| ReleasePublisher.Publisher.Stage | scripts/github_release.py:259-296 | afterwards every asset is uploaded and a backup has succeeded; a second stage makes no remote write; a blocked directory stops it before any; while an unfinished upload of a planned asset is younger than five minutes it fails and that upload stays |
| ReleasePublisher.Publisher.CheckStaged | scripts/github_release.py:306-310 | true exactly when every planned asset is completely uploaded by this plan |
| ReleasePublisher.Publisher.PromoteTag | scripts/github_release.py:311-317 | afterwards the tag is at the plan's commit; a tag already there is not moved again |
| ReleasePublisher.Publisher.PreserveOthers | scripts/github_release.py:318-327 | originals that no planned asset replaces end under their preserved names |
| ReleasePublisher.Publisher.MakeRoom | scripts/github_release.py:333-339 | frees the canonical name by preserving the original there; what is ready stays ready |
| ReleasePublisher.Publisher.PromoteAsset | scripts/github_release.py:328-346 | afterwards the upload has its canonical name; one already in place causes no remote write |
| ReleasePublisher.Publisher.Rearrange | scripts/github_release.py:318-346 | afterwards every planned asset is in place and every remaining original preserved |
| ReleasePublisher.Publisher.PublishNotes | scripts/github_release.py:347-357 | afterwards the release shows the plan and the right latest mark; if it did already nothing is written |
| ReleasePublisher.Publisher.DeleteOne | scripts/github_release.py:362-368 | removes one preserved original and nothing else, keeping everything settled |
| ReleasePublisher.Publisher.DeleteOriginals | scripts/github_release.py:359-368 | afterwards no original is left and the planned assets are untouched |
| ReleasePublisher.Publisher.PublishStaged | scripts/github_release.py:311-369 | tag, renames, notes and deletions in this order complete the plan |
| ReleasePublisher.Publisher.Publish | scripts/github_release.py:298-369 | success means the plan is complete; without faults a staged plan succeeds; a complete plan causes no remote write; publish of a plan with an original, and replace of one without, are refused with nothing changed |
| ReleasePublisher.Publisher.Verify | scripts/github_release.py:371-391 | succeeds exactly when the remote shows the plan, faults aside, and changes nothing remote |
| ReleasePublisher.Publisher.VerifyAssets | scripts/github_release.py:381-387 | succeeds exactly when the names are the expected ones and the bytes the planned ones |
| ReleasePublisher.CompleteMeans | scripts/github_release.py:371-387 | a complete plan has its release published, the tag moved, all assets in place and no original |
| SourceArchive.FixedArchive | scripts/release_plan.py:224-266 | succeeds exactly when every item is a plain or executable blob outside the four private directories with no backslash, something is listed, and every listed blob reads back with its identity; then the archive has exactly the listed paths, modes and blobs in order; says which error comes otherwise |
| SourceArchive.List | scripts/release_plan.py:229-240 | the included items in order, or the error of the first item that is refused |
| SourceArchive.CheckLocalSource | scripts/release_plan.py:187-221 | accepts exactly when every tree item is such a file and every archive is acceptable |
| SourceArchive.ArchivableExactly | scripts/release_plan.py:198-200 | writer and checker refuse exactly the same items, in the fields and characters of the item; they differ in the error for a backslash alone |
| SourceArchive.PrivateExactly | scripts/release_plan.py:13-13 | private is what begins, lowered, with one of the four directory names |
| SourceArchive.PrivateInAnyCase | scripts/release_plan.py:200-200 | two paths that differ in case only are both private or both not |
| SourceArchive.PartsAreSegments | scripts/release_plan.py:208-208 | splitting at slashes gives exactly the stretches between neighbouring slashes and ends |
| SourceArchive.SafePathExactly | scripts/release_plan.py:207-209 | an entry name is safe exactly when it is not private, relative, free of backslash and colon, and no segment before its trailing slashes is empty, a dot or two dots |
| SourceArchive.CheckArchive | scripts/release_plan.py:203-221 | accepts exactly the archives with the right comment, safe names, no repeated file, fitting names, modes and blobs; says which of several errors is reported |
| SourceArchive.ReadTree | scripts/release_plan.py:191-201 | the map of the tree, or the error of the first item that is refused |
| SourceArchive.CheckNames | scripts/release_plan.py:205-211 | no error exactly when every entry name passes, otherwise that of the first failing one |
| SourceArchive.CheckFiles | scripts/release_plan.py:215-221 | no error exactly when every file has its mode and blob, otherwise that of the first failing one |
| SourceArchive.CountsDistinct | scripts/release_plan.py:212-213 | the dictionary is as long as the list exactly when no name repeats |
| SourceArchive.WrittenIsAccepted | scripts/release_plan.py:187-266 | an archive the writer made is accepted if and only if every listed path meets the path rules and, as a source, nothing was filtered out |
| SourceArchive.AcceptedIsTree | scripts/release_plan.py:212-221 | an accepted archive unpacks to files of the tree with their modes and bytes, an accepted source archive to all of them |
| SourceArchive.AcceptedEntries | scripts/release_plan.py:205-213 | every entry of an accepted archive has a safe name; a file is one of the tree, a directory holds something of the tree |
| SourceArchive.BlobShaInjective | scripts/release_plan.py:217-221 | the hashed header and content determine the content |
| SourceArchive.DirectoriesMayStand | scripts/release_plan.py:205-212 | a directory entry anywhere in an archive is accepted exactly when its name is safe and some path of the tree lies under it, and changes nothing else about the archive |
| SourceArchive.DigitsReadBack | scripts/release_plan.py:217-217 | the length in the blob header is the decimal number without leading zeros |
| EditDistance.Compute | backend/app/acceptance.py:7-16 | refuses exactly the inputs above twenty million cells, otherwise returns the distance |
| EditDistance.NextRow | backend/app/acceptance.py:11-15 | the next row holds the distances of the next prefix |
| EditDistance.NoShorterEdits | backend/app/acceptance.py:7-16 | no sequence of inserts, deletes and replacements is shorter than the distance |
| EditDistance.ShortestEdits | backend/app/acceptance.py:7-16 | some such sequence is exactly as long |
| EditDistance.DistanceIsShortest | backend/app/acceptance.py:7-16 | the distance is the minimum number of edits |
| EditDistance.Bounds | backend/app/acceptance.py:7-16 | between the difference of the lengths and the longer length |
| EditDistance.ZeroIffEqual | backend/app/acceptance.py:7-16 | zero exactly for equal sequences |
| EditDistance.Symmetric | backend/app/acceptance.py:7-16 | symmetric |
| EditDistance.Triangle | backend/app/acceptance.py:7-16 | triangle inequality |
| SpeakerMapping.BestMapping | backend/app/acceptance.py:57-66 | the table over used columns yields the weight of some one-to-one mapping and no mapping weighs more |
| SpeakerMapping.NextTable | backend/app/acceptance.py:58-65 | one more row keeps every entry attained by a mapping and none beaten by one with the same columns |
| SpeakerMapping.TryColumns | backend/app/acceptance.py:60-64 | the inner loop tries every unused column and never lowers an entry |
| SpeakerScore.Tally | backend/app/acceptance.py:42-55 | the loop over elementary intervals computes every tick-by-tick total and the whole overlap matrix |
| SpeakerScore.AddOverlap | backend/app/acceptance.py:53-55 | adds the duration exactly where both speakers are active |
| SpeakerScore.BoundariesOf | backend/app/acceptance.py:42-42 | every start and end and nothing else, once each, in increasing order |
| SpeakerScore.PaddedFor | backend/app/acceptance.py:56-66 | every one-to-one mapping of speakers extends to a padded one |
| SpeakerScore.BestPaddedIsBest | backend/app/acceptance.py:56-66 | the best padded mapping is the best one-to-one mapping of speakers |
| SpeakerScore.Score | backend/app/acceptance.py:34-70 | unavailable, refused above twelve speakers, or the one true report |
| SpeakerScore.ScoreSpeakers | backend/app/acceptance.py:42-70 | the computed report is the report over any window that holds all segments |
| SpeakerScore.BestAtMostCommon | backend/app/acceptance.py:66-66 | the best weight never exceeds the common time, so the clamp never acts |
| SpeakerScore.ReportIsUnique | backend/app/acceptance.py:34-70 | there is only one report, whatever order speakers and intervals are taken in |
| SpeakerScore.RenamingKeepsReport | backend/app/acceptance.py:56-70 | renaming hypothesis speakers one-to-one changes nothing in the report |
| SpeakerScore.ScoreRenamed | backend/app/acceptance.py:34-70 | scoring a hypothesis under other speaker names returns the same result, be it a report, a refusal or unavailable |
| SpeakerScore.PerfectReport | backend/app/acceptance.py:56-70 | a renamed reference scores no error and a rate of zero |
| SpeakerScore.ReportAccounts | backend/app/acceptance.py:44-52 | missed plus common is the summed union length of the reference speakers, false alarm plus common that of the hypothesis |
| Diarisation.Accounting | backend/app/acceptance.py:49-52 | missed and common time make up the reference, false and common time the hypothesis |
| Diarisation.SpokenIsUnionLength | backend/app/acceptance.py:49-49 | the denominator is the summed length of each speaker's union of segments |
| Diarisation.MappedAtMostCommon | backend/app/acceptance.py:52-66 | no one-to-one mapping gets more than the common time right |
| Diarisation.BestIsRenamed | backend/app/acceptance.py:56-66 | the best mapping gets as much right after a renaming |
| Diarisation.PerfectBest | backend/app/acceptance.py:56-66 | for a renamed reference the best mapping gets all common time right |
| Diarisation.TotalOfAnySpan | backend/app/acceptance.py:42-55 | totals do not depend on the window once it holds every segment |
| AttachmentUpload.Upload.ReceiveChunk | backend/app/media_routes.py:103-162 | the answer is exactly the one for the files as they are, unless a process death cuts it off; a refusal changes nothing, an accepted chunk extends the partial file or was in it; the stored bytes agree with every accepted chunk; honest chunks keep the partial file a prefix |
| AttachmentUpload.Upload.RecordUpload | backend/app/media_routes.py:131-141 | exactly which chunks go on: the first of an upload, or one with the recorded name and total; which refusal the others get |
| AttachmentUpload.Upload.StoreChunk | backend/app/media_routes.py:131-162 | without a destination: the exact answer and the exact partial file and metadata, or a process death that loses nothing acknowledged |
| AttachmentUpload.Upload.PutChunk | backend/app/media_routes.py:143-162 | a chunk that goes on is compared or appended, and the last byte leads to the digest; exact answer and partial file |
| AttachmentUpload.Upload.CompareStored | backend/app/media_routes.py:122-129 | a chunk for a finished file is acknowledged exactly when the total and the bytes agree, and nothing changes |
| AttachmentUpload.Upload.Append | backend/app/media_routes.py:143-154 | a gap or an overlap past the end is refused, a repeated chunk must equal the stored bytes, the next one extends the file, possibly torn by an interruption |
| AttachmentUpload.Upload.FinishChunk | backend/app/media_routes.py:163-182 | without faults and with no row the partial file becomes the destination with its row and the call reports the total and completion; with a row, exactly which acknowledgement or refusal comes; a committed row is never overwritten; nothing held is lost |
| AttachmentUpload.Upload.Commit | backend/app/media_routes.py:172-182 | without faults the transaction always succeeds with exact files and row; cut off before or after it takes effect it keeps every chunk held and leaves the upload consistent |
| AttachmentUpload.Upload.MovePartial | backend/app/media_routes.py:172-172 | the destination is exactly the partial file and its chunks are delivered |
| AttachmentUpload.Upload.UploadWhole | backend/app/media_routes.py:39-91 | the exact answer and files of the single-request endpoint with the same key; it keeps the upload consistent if and only if the file does not contradict an accepted chunk of the partial file it comes to stand beside |
| AttachmentUpload.Upload.Cleanup | backend/app/media_routes.py:305-313 | removes exactly the file it is for and keeps the invariant, the row, and every chunk that another file still holds |
| AttachmentUpload.Upload.Restart | backend/app/media_routes.py:121-182 | a process death during a call keeps the invariant |
| AttachmentUpload.Perform | backend/app/media_routes.py:36-182 | any call in any order keeps the invariant, the row, everything acknowledged that a remaining file holds and, for honest calls, honesty; a consistent upload stays so exactly when the call is not a whole file that contradicts its partial file |
| AttachmentUpload.AnyRun | backend/app/media_routes.py:36-182 | over every run of any clients each acknowledged chunk is held until the last file with it is cleaned up and the partial file stays within the recorded total; as long as no whole file contradicted the partial file, overlapping acknowledged chunks agree |
| AttachmentUpload.SendSlices | backend/app/media_routes.py:94-182 | a client that sends consecutive slices of any file to a fresh upload gets every slice acknowledged with the length so far and ends with the file as destination and its row, for every file, suffix and division into slices within the limits |
| AttachmentUpload.SendSlice | backend/app/media_routes.py:103-162 | the next slice of such a client extends the partial file by exactly its bytes, and the last one completes the upload |
| AttachmentUpload.HeldAgree | backend/app/media_routes.py:121-158 | in a consistent upload any two chunks held for one file agree |
| AttachmentUpload.ForkDisagrees | backend/app/media_routes.py:122-129 | in an upload that is not consistent, for every differing byte, one more chunk call is acknowledged and disagrees with an accepted chunk |
| AttachmentUpload.TwoFilesDisagree | backend/app/media_routes.py:73-80 | a chunk, a whole file and a chunk with one key, all acknowledged without interruption, of which the two chunks disagree |
| AttachmentUpload.HonestRun | backend/app/media_routes.py:94-182 | whatever the order, repetition and interruption of honest calls, the partial file is a prefix of the file and a destination is the file |
| AttachmentUpload.AfterCommit | backend/app/media_routes.py:60-80 | after the row is committed no calls of any client through either endpoint write a destination, even after cleanup |
| RequestOverrides.DeepMerge | backend/app/request_overrides.py:54-58 | filling a copy key by key gives the recursive merge, in any key order |
| RequestOverrides.KeyByKey | backend/app/request_overrides.py:54-68 | a key of the merged payload depends on that key alone |
| RequestOverrides.MergeTakes | backend/app/request_overrides.py:54-58 | at any path a non-object value of the overriding body is in the merged one |
| RequestOverrides.MergeKeeps | backend/app/request_overrides.py:54-58 | at any path the overriding body is silent about, the merged one has what was there |
| RequestOverrides.PutAllTwice | backend/app/request_overrides.py:54-58 | laying a list of values over one key twice equals doing it once, scalars and objects mixed |
| RequestOverrides.OverrideTwice | backend/app/request_overrides.py:54-68 | the same for whole payloads, at every depth |
| RequestOverrides.ApplyOverrides | backend/app/request_overrides.py:61-68 | selection, stable order and merge give the specified payload |
| RequestOverrides.ForeignRuleIsIgnored | backend/app/request_overrides.py:62-63 | a rule for another capability, another model or the other stream mode never changes the result, wherever it stands in the list |
| RequestOverrides.NamedValueIsSent | backend/app/request_overrides.py:61-68 | a rule with the capability, model and stream mode of the call that alone names a key decides it: its value, if not an object, is in the payload sent |
| RequestOverrides.MoreSpecificWins | backend/app/request_overrides.py:65-68 | of two fitting rules that alone name a key the one that names the model decides or, if both or neither do, the one that names the stream mode, whichever is listed first |
| RequestOverrides.LaterWins | backend/app/request_overrides.py:65-68 | of two equally specific rules that alone name a key the one listed later decides |
| RequestOverrides.ApplyTwice | backend/app/request_overrides.py:61-68 | applying the same rules again selects the same rules and changes nothing |
| RequestOverrides.ProtectedKept | backend/app/request_overrides.py:8-68 | no rule list adds, removes or changes one of the eighteen protected fields |
| RequestOverrides.OrderedBySpecificity | backend/app/request_overrides.py:65-65 | the order has the same rules by rising specificity |
| RequestOverrides.OrderedIsStable | backend/app/request_overrides.py:65-65 | rules of equal specificity keep the order they are listed in |
| RequestOverrides.LastScalarWins | backend/app/request_overrides.py:54-68 | the last rule with a value for a key decides it if that value is not an object |
| HostRpc.StepKeepsInv | backend/app/host_bridge.py:16-64 | every step of a caller or the listener keeps the invariant |
| HostRpc.RunKeepsInv | backend/app/host_bridge.py:16-64 | so does every interleaving |
| HostRpc.SafeInEveryRun | backend/app/host_bridge.py:16-64 | a call returns its own response with a payload that was read for it, the disconnect error of a closed pipe, a refusal, or a timeout; after disconnect no waiting call has an empty queue; nothing is pending once all calls returned |
| HostRpc.FirstQueuedWins | backend/app/host_bridge.py:32-63 | a queued message is the outcome of its call whatever follows, so the disconnect error never replaces it |
| HostRpc.DeliveredWins | backend/app/host_bridge.py:49-53 | a response put on the empty queue of a waiting call is the outcome of that call, whatever follows |
| HostRpc.ResponseReturns | backend/app/host_bridge.py:32-53 | reading, finding, putting, taking and leaving are possible in this order for every waiting call, which then returns exactly the payload read; no other call is affected |
| HostRpc.DisconnectReturns | backend/app/host_bridge.py:54-63 | after a disconnect a waiting call without a response returns the disconnect error |
| HostRpc.TimeoutReturns | backend/app/host_bridge.py:37-41 | a waiting call with an empty queue can give up; it returns the timeout, is no longer pending and changes nothing else |
| HostRpc.ClosedRefuses | backend/app/host_bridge.py:22-24 | once closed the pipe stays closed and every later call is refused without ever being pending |
| HostRpc.HeardIsRead | backend/app/host_bridge.py:43-49 | the history holds exactly the messages read, in order |
| OperationLog.StepKeepsInv | backend/app/operation_logs.py:65-126 | every step of emitters, closers and writer keeps the invariant |
| OperationLog.RunKeepsInv | backend/app/operation_logs.py:65-126 | so does every interleaving |
| OperationLog.NothingIsLost | backend/app/operation_logs.py:65-126 | the accepted rows are exactly those emitted while open with fewer than 4096 items queued, the dropped ones exactly the other open emits, in order; the accepted split into processed, batched and queued ones in order, the processed into inserted and failed ones, each in order; the sentinel is the last item; when the writer has exited every accepted row was processed |
| OperationLog.DroppedWhenFull | backend/app/operation_logs.py:65-73 | from the steps alone: which rows a run accepts and which it drops |
| OperationLog.EverythingIsProcessed | backend/app/operation_logs.py:65-126 | a run whose queue never fills drops nothing, and after the writer exits every row emitted while open has been through a transaction, in order |
| OperationLog.WriterFinishes | backend/app/operation_logs.py:75-97 | from every state of a closed store the writer can go on to its exit with every accepted row processed |
| OperationLog.CloseCompletes | backend/app/operation_logs.py:120-126 | closing is possible in every state and leads there |
| OperationLog.TableIsNewest | backend/app/operation_logs.py:87-90 | after any successful batch the table holds exactly the newest of the rows that were there and of the accepted rows whose transaction succeeded, at most the retained number, in increasing id order |
| OperationLog.TrimmedKeepsNewest | backend/app/operation_logs.py:90-90 | the delete statement keeps exactly the newest rows |
| OperationLog.CommitKeepsTable | backend/app/operation_logs.py:87-90 | one transaction keeps the table the newest rows there ever were |
| OperationLog.IdsFollow | backend/app/operation_logs.py:87-90 | while any rows are retained, new rows are numbered one after another from the newest one of the start; trimming never makes an id come again |
| TextTokens.Tokens | backend/app/textutils.py:14-21 | the loops produce the specified token list |
| TextTokens.TokensExactly | backend/app/textutils.py:10-21 | a token is a whole word of the lowered text, or one or two adjacent CJK characters of the text, and nothing else |
| TextTokens.TokensOfOne | backend/app/textutils.py:10-18 | which single characters make a token: a to z, 0 to 9, U+4E00 to U+9FFF and no other |
| TextTokens.RunsAreMaximal | backend/app/textutils.py:10-18 | the greedy matches are exactly the maximal runs |
| TextTokens.UniqueTokens | backend/app/textutils.py:24-32 | the loop with its seen set computes first-occurrence deduplication |
| TextTokens.UniqueKeepsAll | backend/app/textutils.py:24-32 | deduplication loses no token, repeats none and keeps the order of first occurrences |
| TextTokens.SegmentReadsBack | backend/app/textutils.py:35-37 | splitting the stored column gives back the deduplicated tokens |
| TextTokens.MatchQuery | backend/app/textutils.py:40-45 | the expression of the deduplicated tokens, or none |
| TextTokens.PhrasesReadBack | backend/app/textutils.py:45-45 | reading the expression as quoted phrases joined by OR gives back the tokens |
| TextTokens.MatchesSharedTokens | backend/app/textutils.py:35-45 | an expression exists exactly for queries with a token and matches a stored text exactly when they share one |
| TextTokens.Recall | backend/app/textutils.py:14-45 | every token of a non-empty CJK query is stored for any text it is part of, and the query matches |
| TextTokens.CaseDoesNotMatter | backend/app/textutils.py:10-45 | texts that differ in case only have the same tokens, the same stored column and the same expression |
| NoteIndex.Tables.ReplaceNote | backend/app/repository.py:74-128 | the new tables, the refusal of a taken path or block id with nothing changed, and the block ids the note had |
| NoteIndex.Tables.InsertBlocks | backend/app/repository.py:111-127 | inserts every block with its search row, or fails exactly when an id is taken |
| NoteIndex.Tables.DeleteNote | backend/app/repository.py:131-148 | removes the note with its blocks and search rows and reports its block ids |
| NoteIndex.Tables.UpdateLocation | backend/app/repository.py:253-273 | moves a stored note only; an unknown note or a taken path is refused |
| NoteIndex.Tables.ClearAll | backend/app/repository.py:463-474 | empties all three tables |
| NoteIndex.Tables.GetNote | backend/app/repository.py:151-172 | the note with its blocks ordered by position, or nothing |
| NoteHistory.InsertableExactly | backend/app/database/migrations.py:28-29 | the inserts succeed exactly when the ids are new and differ from each other |
| NoteHistory.ReplaceKeepsInv | backend/app/repository.py:91-128 | replacing a note keeps the search rows the projection of the blocks and leaves every other note alone |
| NoteHistory.DeleteKeepsInv | backend/app/repository.py:142-144 | removing a note does the same |
| NoteHistory.HistoryKept | backend/app/repository.py:74-474 | so does every sequence of calls |
| NoteHistory.LookupIsLastWritten | backend/app/repository.py:74-172 | a note is found exactly when written and not removed since, with title, path, folder, tags and times as last written or moved, its first creation time, and the blocks last written in order; the reported old ids are those of these blocks |
| NoteHistory.RefusedExactly | backend/app/database/migrations.py:18-38 | a call is refused exactly when another note has the path, a block id belongs to another note or repeats, or the moved note is unknown, told from the calls before it |
| NoteHistory.OrderedSorts | backend/app/repository.py:151-172 | the blocks come back by rising position, the same rows, whatever order they are stored in |
| NoteHistory.SearchRowsAreBlocks | backend/app/repository.py:109-127 | exactly one search row per block, holding the segmented heading and content; no block or path twice |
| NoteHistory.SearchFindsBlock | backend/app/repository.py:122-127 | a CJK query finds the row of every stored block whose content it is part of |
| EventStream.StepKeepsInv | backend/app/routes.py:1765-1800 | every step of the run and of the stream keeps the invariant |
| EventStream.RunKeepsInv | backend/app/benchmarks/service.py:48-73 | so does every interleaving of storing, publishing, closing, recovering and streaming |
| EventStream.ExactlyOnce | backend/app/routes.py:1765-1800 | the client has a gap-free prefix of the events after its cursor, each once and in order; a terminal event is last and ends the stream; a stream waiting on an empty queue has delivered everything published |
| EventStream.EndsWithEverything | backend/app/routes.py:1776-1797 | once the run is closed the stream ends on its own, and it has delivered every event after the cursor if and only if the run was not recovered, or the snapshot has the last event, or nothing follows the cursor |
| EventStream.TerminalMissed | backend/app/benchmarks/service.py:98-107 | a run in which the stream ends without the terminal event that recovery stores |
| EventStream.NextEventArrives | backend/app/benchmarks/service.py:48-78 | while the run is open and the stream waits, the next event is stored, published and delivered, and a terminal one ends the stream; an event the cursor already covers is skipped |
| EventStream.DrainKeepsInv | backend/app/routes.py:1776-1797 | the stream's own steps reach the end from any state of a closed run |
| EventStream.AfterIsSuffix | backend/app/benchmarks/service.py:75-77 | with sequence numbers equal to positions, the events after a cursor are a suffix of the log |
| MarkerScan.Scan | scripts/verify_android_package.py:103-110 | for every split into blocks the scan succeeds exactly when every marker occurs in the whole file, early exit included |
| MarkerScan.FoundInChunk | scripts/verify_android_package.py:106-109 | an occurrence is in what was read before or in the tail with the new block |
| MarkerScan.FindIn | scripts/verify_android_package.py:107-107 | adds exactly the markers that occur in the chunk |
| MarkerScan.CountDecides | scripts/verify_android_package.py:108-110 | as many found as there are markers means all were found |

## Left out

- ReleaseRuns.Converges: takes a plan with safe names, because it fails for every other plan (`ReleaseRuns.NeverConverges`); the service's clock is at most five seconds behind the one the journal uses, as the source's age checks presume.
- ReleaseBackup.BackupsHoldAll: an original called `release.json` is taken to differ from the metadata file.
- ReleaseRuns.InterruptedRuns: nobody else writes to the tag, the release or its assets while a plan is in progress. The checks for foreign tags, notes and assets are modelled for every state; runs that continue after such a change are not.
- ReleasePublisher.Publisher.Record: the atomic replacement of the journal file is one step, and recorded times never go back.
- ReleasePublisher.Publisher.Assets: paging of listings is one step.
- SpeakerScore.Score: times are whole ticks and the rate is exact, without rounding; the order of sorted speaker names is left open, and the report does not depend on it.
- HostRpc.SafeInEveryRun: a timeout may happen at any time while the queue is empty; message sizes and parsing are one nondeterministic disconnect.
- SourceArchive.FixedArchive: compression, dates and reading in blocks are not modelled; a blob that is not read completely is absent.
- NoteIndex.Tables.ReplaceNote: a refused call is rolled back inside the model, as its callers' transactions do; timestamps and JSON columns are values.
- NoteIndex.Tables.GetNote: row order without ORDER BY is insertion order.
- EventStream.EndsWithEverything: a change of the active vault during a stream is not modelled.
- MarkerScan.Scan: markers are taken to be non-empty and distinct, as the three constants are.
- RequestOverrides.ApplyOverrides: rules are taken as validated; the size, depth, secret-name and `stream_options` checks of the validator would be single-branch input checks.
- AttachmentUpload.Perform: one upload identity at a time; request streaming is one byte string, and the follow-up deletion of transcripts is not modelled.
- TextTokens.Recall: lowering is a function of one character that leaves CJK characters alone; the full-text tokenizer is taken as runs of lower-case letters, digits and CJK characters, which is what the stored columns consist of.
- Names of assets are a datatype of canonical, pending and preserved names, so that the three forms are disjoint; the plan's field, pattern and version checks are not modelled.
- HTTP, TLS, Git and subprocess plumbing, the publisher's process lock, and the read-only `precheck` and `snapshot` commands.
- Word error rates and text normalisation in `score`, search ranking and snippets, log queries, and everything in the frontend and the Rust host.
