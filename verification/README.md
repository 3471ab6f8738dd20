# bakar: a verified model of its stateful core

bakar drives Yocto builds. This project models five parts of it in Dafny and proves what each promises.

* **The feed mirror.** It copies a published package feed into a local channel directory in three phases: plan,
  download with concurrent workers, publish. It is modelled as a step system over a map from paths to bytes
  (`MirrorRun`), where workers interleave freely, any step may fail, and a crash is a run that takes no further step.
  Path confinement (`Segments`, `MirrorPaths`), the checks before the first download and the final tally
  (`MirrorPlan`), the bounded transfers (`BoundedIo`), safety of publishing (`MirrorSafety`), ownership over any
  sequence of runs (`MirrorOwnership`, `MirrorNested`), the packages (`MirrorListed`) and the metadata files
  (`MirrorMetadata`, `MirrorReindex`) of every index there is, disk growth (`MirrorDisk`) and completion
  (`MirrorProgress`) are separate modules.
* **The event log readers.** The accumulator is a class that changes its fields (`EventFold`) and its result has a
  closed form over the whole event sequence (`EventForm`). The bytes of a log are lines in two ways, as bytes and as
  text (`EventLines`). The batch reader and the incremental reader (`EventLog`) and the live tailer (`EventTail`) run
  against a log file on the heap that grows, is replaced or vanishes under them.
* **The ceiling rendezvous and markup.** Nodes publish a record and then read their peers' (`Ceiling`); text is
  escaped for a console (`Markup`).
* **The native leak scan.** A tree walk with confined resolution, a read cache and deferred classification
  (`LeakScan`, `Versions`).
* **Stopping, waiting and choosing.** The wait loop against any clock and any probe (`GracefulWait`), the signal
  ladder as a trace (`StopLadder`), the stop of one run with the files it may remove (`StopRun`), settling a systemd
  scope (`ScopeSettle`) and choosing a build's capture (`CaptureSelect`).

Code that works by changing things is modelled by methods and classes that change things, each tied by its `ensures`
to a specification; what the source promises is then proved of the specification.

## How the environment appears

* Bytes from the network, XML, pickle and JSON are inputs. A digest is a function of a checksum type and bytes
  (`Env.digest`); what a marker file names is a function of its bytes (`Env.sourceOf`), and so are the metadata files
  an index names, in order (`Env.entriesOf`), and what a log line decodes to (`meaning`). The listing that comes out
  of a primary file is an input of the planning step.
* Any step of a mirror run can fail through the actions `Drop`, `DropMeta`, `Break`, `Cancel`, `Scribble` and
  `Abort`; the next `Start` may follow any state. A metadata file is staged by `StageMeta`, placed by `PlaceMeta` once
  it is what its entry declares, and dropped by `DropMeta`. The number of workers is not bounded (the program uses a
  small pool).
* Probes, clocks and signals are answers given from outside: a sequence of rounds, a record of answers, or a list of
  yes and no that the kernel uses up. Nothing relates one answer to the next.

## Hypotheses

* No symbolic link lies inside the channel directory, and nothing else writes there during a run. File and directory
  of one name are not told apart.
* In the leak scan, what a path is, where it really leads and what the reader says of it do not change during a scan,
  and the real path of a real path is itself.
* Where a nested repository is shown to lose its marker, the formats can say what is needed for it: an index with one
  metadata file of the name wanted, and two marker files that differ in source (`MirrorNested.Offered`).
* Hostnames are distinct, a record is replaced atomically and is visible to later listings, and a record that can be
  read as a ceiling is not deleted by hand. `Ceiling.SharedHostnameDefeatsCheck` shows the first is needed.
* What systemd does to a command line is what the documentation of `escape_for_systemd_run` says
  (`src/bakar/build_scope.py:576-585`), with an unclosed `${` left alone; what the console does to backslashes is what
  the documentation of `markup_safe` says (`src/bakar/diagnostics.py:986-1000`).
* A decoder of log lines looks at the stripped line and ignores a blank one, as `_recognized_line` and `_decode_line`
  do (`src/bakar/eventlog.py:215-262`). What strips to nothing is a parameter (`blank`); all that is asked of it is
  that a carriage return is white space and no part of another character (`EventLines.BlankOk`, met by
  `EventLog.SpacesAreBlank`).
* Each comparison or subtraction of decoded numbers in the event fold is taken not to raise. A decoded integer or
  float is a real by its value: rounding, not-a-number and infinities are not modelled.

## What turned out false, and exactly when it holds

* *A published index always keeps its marker*, and *content no mirror made is never written.* A repository nested in
  another one's `repodata` directory is accepted, and planning the outer one can overwrite its marker or pointer with
  fetched bytes. Each of the two holds, over every history of runs, if and only if the repository is not nested so:
  `MirrorNested.MarkerIsKeptExact`, `MirrorNested.ForeignIsSparedExact`.
* *The packages of a published index stay on disk.* They do while their run lasts
  (`MirrorSafety.PublishedPackagesStay`), but a later run can replace one and stop before it publishes anything. It
  cannot if and only if none of the packages it planned threatens one: declares its destination, is not up to date
  there, and can be served with bytes of another digest (`MirrorListed.RunSparesListedExact`).
* *The metadata files a published index names stay on disk.* A completed run has them all
  (`MirrorMetadata.CompletedRunHasMetadata`), but a later run places those of a new index before it publishes
  anything, and may stop there. They survive if and only if no entry of the new index that can be reached has the name
  of an old one and accepts bytes the old one does not (`MirrorReindex.NewIndexSparesOldExact`).
* *Every metadata file an index names is on disk once its run completes.* An index may name one file twice with
  different digests, and the last one stays: all of them hold if and only if the last entry of each name accepts
  nothing the earlier ones refuse (`MirrorReindex.DuplicatesExact`). A file named like the marker of a repository
  nested in `repodata` is replaced by that marker (`MirrorMetadata.SpoiledEntryIsMarker`).
* *A run whose checks have passed can complete.* If and only if no worker has given up or holds the wrong bytes of its
  last attempt: `MirrorProgress.CompletableExact`.
* *The landing check refuses a repository's packages inside another.* It also refuses every in-repository package of a
  repository nested in a selected one: `MirrorPlan.NestedRepositoriesExact`.
* *Conflicting listings are refused.* The check compares checksum type and value; two listings of one destination
  that differ in size alone pass, and the first is kept (`MirrorPlan.CheckNoConflictingChecksums`,
  `MirrorPlan.UniqueExact`).
* *The incremental reader agrees with the batch reader.* Text mode ends a line at a carriage return too. The two agree,
  whatever the decoder, if and only if no carriage return in the log, up to its last newline, has text that is not
  blank on both sides of it within its line (`EventLog.AgreementExact`), and a poll sees the whole log if and only if
  the change before it was visible (`EventLog.PollSees`).
* *Each signal to the process in the lock file follows a verification.* This holds of the layer that reads the lock
  file. The recorded group, and what the search by arguments found, are signalled without verifying, so for the number
  itself it holds if and only if it is neither of these: `StopLadder.LockNumberVerifiedExact`.
* *Escalation runs once.* A Ctrl-C that arrives during an escalation started by the grace runs the ladder a second
  time: `GracefulWait.Wait`.
* *A stop of a host build interrupts its own wrapper.* When the wrapper is gone or not identified but a detached
  cooker remains, the recorded group is interrupted all the same: to a group that failed its identity check exactly
  when the signal can be delivered, and raising, after the launch record is removed, exactly when it cannot: the
  group is gone, or belongs to another user (`StopRun.StopHostRun`, `src/bakar/build_stop.py:1212-1240`).
* *Names within d of the starts identify captures when starts are 2d apart.* They must be more than 2d apart:
  `CaptureSelect.TwiceIsNeeded`.

## Model

| member | source | states |
|---|---|---|
| MirrorPaths.ValidateRepoPathExact | src/bakar/feed_mirror_paths.py:77-94 | a repository path is accepted if and only if it is non-empty, relative, free of NUL and backslash, made of plain names, and does not start in the pool or the snapshots; it is returned as given |
| MirrorPaths.ConfineMetadataExact | src/bakar/feed_mirror_paths.py:97-108 | a metadata href is accepted if and only if it is `repodata/` and one plain name that is neither the index, its signature nor a `.part`; the result is that name |
| MirrorPaths.NormalisedIsWalk | src/bakar/feed_mirror_paths.py:132-134 | the normaliser's segment fold equals an independently defined segment walk from the repository, including when it leaves the channel |
| MirrorPaths.ConfinePackageExact | src/bakar/feed_mirror_paths.py:111-144 | a package href is accepted with a given destination if and only if it passes the syntactic tests and its walk from the repository never leaves the channel at any prefix, ends at that destination, lands in the pool or strictly inside the repository, and names no `repodata` |
| MirrorPaths.EscapeIsRefused | src/bakar/feed_mirror_paths.py:132-134 | a well-formed href is refused as escaping if and only if the depth of some prefix of it is negative |
| MirrorPaths.ConfinedShape | src/bakar/feed_mirror_paths.py:130-144 | an accepted destination has no empty, `.`, `..` or `repodata` segment, still ends in `.rpm`, and is a fixed point of the normaliser |
| MirrorPaths.RemoveDotSegmentsIsWalk | src/bakar/feed_mirror_paths.py:132-134 | the string rewriting of section 5.2.4 of RFC 3986 follows the segment walk for as long as the walk stays inside |
| MirrorPaths.ConfinementAgreesWithRfc3986 | src/bakar/feed_mirror_paths.py:111-144 | for every accepted href the destination is what dot-segment removal of section 5.2.4 of RFC 3986 gives for `/repo/href` |
| BoundedIo.CopyBounded | src/bakar/feed_mirror.py:144-159 | for every chunking of the stream: all of the rest is passed on when it fits the limit; otherwise it refuses after passing on a prefix of at most the limit; never pulls more than one byte past the limit |
| BoundedIo.ReadBounded | src/bakar/feed_mirror.py:162-173 | returns exactly the rest of the stream when it fits the limit and refuses otherwise, with the same bound on what is pulled |
| BoundedIo.BoundedReader.Read | src/bakar/feed_mirror_meta.py:174-193 | each read continues where the last ended, and a read refuses exactly when the first byte past the limit has been pulled |
| BoundedIo.PrimaryLimit | src/bakar/feed_mirror_meta.py:238-257 | a declared open size only ever narrows the cap; a negative one is refused |
| BoundedIo.ReadListing | src/bakar/feed_mirror_meta.py:238-257 | a parser asking for any sizes gets the whole listing if and only if it fits the effective bound, and at most one byte more than the bound is decompressed |
| BoundedIo.Retrying | src/bakar/feed_mirror.py:266-284 | at most three calls; all but the last were transient; the last outcome is the outcome; a transient outcome means all three were used; the sleeps are the backoff |
| MirrorPlan.PlanPackagesExact | src/bakar/feed_mirror.py:520-544 | a listing is planned if and only if every entry is confined and has a supported checksum type; then the plan is its entries, one by one and in order, each at its confined destination |
| MirrorPlan.PlannedPackagesAreConfined | src/bakar/feed_mirror.py:510-544 | every package of an accepted plan is confined to the pool or its own repository, one per listing entry |
| MirrorPlan.CheckNoConflictingChecksums | src/bakar/feed_mirror.py:547-567 | passes if and only if any two listed packages with one destination agree in checksum type and value; a refusal names a destination with a conflict |
| MirrorPlan.CheckNoCrossRepoLanding | src/bakar/feed_mirror.py:570-593 | passes if and only if no package of any plan lands under another selected repository |
| MirrorPlan.PooledNeverCrosses | src/bakar/feed_mirror.py:570-593 | a pooled package can never trip the landing check |
| MirrorPlan.NestedRepositoriesExact | src/bakar/feed_mirror.py:570-593 | for any selection the check passes if and only if every plan whose repository is inside a selected one lists only pooled packages and no plan lists anything inside a selected repository inside its own: it also refuses a nested repository's own packages |
| MirrorPlan.UniqueExact | src/bakar/feed_mirror.py:596-602 | de-duplication keeps exactly the first package of each destination, once, and loses no destination |
| MirrorPlan.DedupePackages | src/bakar/feed_mirror.py:596-602 | the loop over all plans computes that de-duplication |
| MirrorPlan.CheckDiskSpace | src/bakar/feed_mirror.py:605-633 | passes if and only if the sizes of the packages not already present at their size fit the free space |
| MirrorPlan.TallyRepo | src/bakar/feed_mirror.py:821-843 | for one repository, downloaded is the number of its packages this run downloaded, with reused it makes up its package count, and its bytes are those of the downloaded ones |
| MirrorPlan.Summarize | src/bakar/feed_mirror.py:819-854 | every repository reports all its packages, downloaded plus reused over the run is the number of unique destinations, and the repositories' bytes sum to at least the run's |
| MirrorPlan.CoveredSum | src/bakar/feed_mirror.py:845-854 | counting each destination once never exceeds counting it once per listing |
| MirrorPlan.CompletionsCoverUnique | src/bakar/feed_mirror.py:669-686 | one result per destination is as many results as de-duplication kept packages |
| MirrorRun.PackagesApart | src/bakar/feed_mirror.py:336-373 | package files and the files they are staged in never coincide, across all packages |
| MirrorRun.ControlIsNotPackage | src/bakar/feed_mirror.py:696-739 | no marker, pointer, index or signature path is a package path or its staging path |
| MirrorRun.TargetsApart | src/bakar/feed_mirror.py:696-739 | different repositories publish to different files, and never to a staging file of one another |
| MirrorRun.MetadataHitsControlExact | src/bakar/feed_mirror_paths.py:97-108 | an accepted metadata file of one repository is a control file of another if and only if the other is the first one's `repodata` directory and the name is a marker's or a pointer's |
| MirrorRun.MetadataCanHitControl | src/bakar/feed_mirror_paths.py:77-108 | that case exists below every repository: nested path and href are both accepted |
| MirrorSafety.WorkerStepOk | src/bakar/feed_mirror.py:336-408 | one worker step keeps what is known of its package (staged, verified, or on disk with its digest) and touches no other file |
| MirrorSafety.InvAlways | src/bakar/feed_mirror.py:742-854 | the run invariant holds in every state of every history of steps, with workers interleaved and any step failing |
| MirrorSafety.IndexWrittenOnlyWhenComplete | src/bakar/feed_mirror.py:789-833 | over any history, a step that changes any index or signature is a publish step, and every package of every planned repository is on disk with its declared digest before and after it |
| MirrorSafety.PublishedPackagesStay | src/bakar/feed_mirror.py:789-833 | from the first publish step to the end of the run, however it ends, every planned package keeps the very bytes it had |
| MirrorOwnership.PublishProgress | src/bakar/feed_mirror.py:704-739 | each publish step keeps marker, then signature, then index true of the repository it is at |
| MirrorOwnership.GuardOfOwned | src/bakar/feed_mirror.py:411-453 | beside an owned index the guard passes for exactly the source that published it |
| MirrorOwnership.OwnInvAlways | src/bakar/feed_mirror.py:742-854 | ownership of every repository not nested in another's `repodata` holds after any sequence of runs from any sources, each stopping anywhere |
| MirrorOwnership.PublishedIndexKeepsItsMarker | src/bakar/feed_mirror.py:411-453 | after any such history the index the mirror wrote for a repository not nested in another's `repodata` holds the published bytes beside a marker naming their source, and a rerun passes the guard if and only if it is from that source |
| MirrorOwnership.CompletedRunIsWhole | src/bakar/feed_mirror.py:715-739 | a completed run leaves, for every planned repository at once, its packages, the exact index, the fetched signature or none, and the marker; the metadata files are in `MirrorMetadata.CompletedRunHasMetadata` |
| MirrorOwnership.ForeignRepositoryIsNeverWritten | src/bakar/feed_mirror.py:411-453 | a repository, not nested in another's `repodata`, that began with an index or pointer but no marker never has its index, signature, marker or pointer written, by any history |
| MirrorOwnership.NestedControlCanBeOverwritten | src/bakar/feed_mirror.py:456-544 | planning the repository around a nested one can put any bytes in the nested marker or pointer |
| MirrorNested.NestedLosesMarker | src/bakar/feed_mirror.py:411-544 | whatever index a source offers for a nested repository, a history from an empty channel publishes it with its marker and then, in a run of the repository around it alone, puts another file in the marker's place |
| MirrorNested.MarkerIsKeptExact | src/bakar/feed_mirror.py:411-544 | a published index keeps its bytes and its marker through every history of runs if and only if its repository is not nested in another's `repodata` |
| MirrorNested.ForeignIsSparedExact | src/bakar/feed_mirror.py:411-544 | content no mirror made keeps its index, signature, marker and pointer through every history if and only if its repository is not nested in another's `repodata` |
| MirrorMetadata.MetaLostExact | src/bakar/feed_mirror.py:490-512 | a metadata file with its declared size and digest is lost in one step exactly when planning its repository, or publishing the one nested in its `repodata`, puts bytes it does not accept in its place |
| MirrorMetadata.CompletedRunHasMetadata | src/bakar/feed_mirror.py:715-739 | a completed run leaves on disk, for every planned repository at once, the last file of each name its index names, with its declared size and digest; all that can be missing is a file named like the marker of a nested repository published by the same run |
| MirrorMetadata.SpoiledEntryIsMarker | src/bakar/feed_mirror.py:715-739 | in that case the file is the nested repository's marker, and the entry holds exactly if it accepts those bytes |
| MirrorMetadata.PublishedMetadataStays | src/bakar/feed_mirror.py:456-512 | over every history that threatened none, all that every published index names is on disk with its declared size and digest |
| MirrorReindex.NewIndexSparesOldExact | src/bakar/feed_mirror.py:456-512 | after any such history, what the published index names survives every continuation of fetching a new index's files if and only if no entry of the new one that can be reached has the name of an old one and accepts bytes the old one does not |
| MirrorReindex.DuplicatesExact | src/bakar/feed_mirror.py:490-512 | once the files of an index are in place every entry of it holds, however they were fetched, if and only if the last entry of each name accepts nothing the earlier ones refuse |
| MirrorDisk.GrowthIsCovered | src/bakar/feed_mirror.py:605-633 | what a set of placed packages adds to the channel is covered by what the preflight required for them |
| MirrorDisk.PackagePhaseGrowth | src/bakar/feed_mirror.py:605-686 | after a completed package phase of any run in any history, the channel has grown by at most the preflight's sum |
| MirrorDisk.ResultsAreComplete | src/bakar/feed_mirror.py:669-686 | the results of a completed phase are exactly one per destination, each the size of the file on disk |
| MirrorProgress.WorkerFinishes | src/bakar/feed_mirror.py:636-666 | whatever is on disk and wherever the worker has got to, an undisturbed worker offered matching bytes finishes, unless it has given up or holds the wrong bytes of its last attempt |
| MirrorProgress.RunCanComplete | src/bakar/feed_mirror.py:636-854 | from any state of the download phase with no such worker, if the source can serve every package some sequence of steps ends the run with every planned index published |
| MirrorProgress.CompletableExact | src/bakar/feed_mirror.py:636-854 | and whatever the workers are doing, a run whose checks have passed can still complete if and only if there is no such worker |
| MirrorListed.LostExact | src/bakar/feed_mirror.py:336-408 | a package on disk is lost in a step if and only if that step is a worker placing bytes over it that do not have its digest |
| MirrorListed.ThreatOfOneType | src/bakar/feed_mirror.py:336-408 | under one type of checksum a planned package threatens a listed one of its destination if and only if it declares another value, is not up to date, and can be served |
| MirrorListed.ListedPackagesStay | src/bakar/feed_mirror.py:742-854 | over any history of runs in which no planned package threatened one when the checks passed, the packages of every index any run has published are on disk with their digests |
| MirrorListed.RunSparesListedExact | src/bakar/feed_mirror.py:742-854 | after such a history, a run that passes its checks leaves all of them on disk however it goes on and wherever it stops if and only if none of its packages threatens one |
| EventFold.NormalizeState.KeepVariables | src/bakar/eventlog.py:366-370 | each wanted variable the dump names takes the value the dump gives it, every other variable stays as it was, and nothing else changes |
| EventFold.NormalizeState.TaskRow | src/bakar/eventlog.py:446-461 | raises on an unhashable key and then changes nothing; otherwise yields the row, created in insertion order on first sight |
| EventFold.NormalizeState.Consume | src/bakar/eventlog.py:463-586 | one event changes the accumulator's fields exactly as the field-wise specification says, or raises and changes nothing |
| EventForm.BuildForm | src/bakar/eventlog.py:463-603 | for every event sequence: times are those of the latest events, the outcome is fixed at the first BuildCompleted by whether a TaskFailed preceded it, and with none completed is failed if and only if some TaskFailed occurred |
| EventForm.CountersForm | src/bakar/eventlog.py:463-586 | setscene is the first usable statistics, runqueue totals the latest |
| EventForm.ListsForm | src/bakar/eventlog.py:463-586 | failures are exactly the TaskFailed events in order, and so for pressure, disk and full-disk samples |
| EventForm.RowsForm | src/bakar/eventlog.py:446-586 | a key has a row if and only if some event names it, and the row is given in closed form by its latest start, end, log and cache events |
| EventForm.OrderForm | src/bakar/eventlog.py:446-461 | one row per task key, in order of first mention |
| EventForm.RunningExact | src/bakar/eventlog.py:697-716 | a task is listed as running if and only if it has no terminal event and its latest TaskStarted carried a time, and then with that time and its latest cache classification |
| EventForm.OutcomeNeverReturns | src/bakar/eventlog.py:463-586 | once a task has ended no later event makes its outcome pending again |
| EventLog.FoldSkipIsFold | src/bakar/eventlog.py:793-800 | folding lines while skipping those that raise is the fold of the events that do not |
| EventLog.Normalize | src/bakar/eventlog.py:606-650 | the batch reader raises if and only if some line raises, and otherwise returns the fold of all text lines |
| EventLines.TextLinesArePieces | src/bakar/eventlog.py:205-212 | on whole lines text mode sees, up to empty lines, each line of the byte reader split at its carriage returns |
| EventLog.IncrementalAgreesWithBatch | src/bakar/eventlog.py:719-815 | on the log cut at its last newline, when no carriage return has text on both sides of it within its line, the skipping fold equals `normalize` when it skipped nothing, and it skipped something exactly when `normalize` raises |
| EventLog.AgreementExact | src/bakar/eventlog.py:205-223 | the two agree on such a log for every decoder that strips its line and ignores a blank one if and only if no carriage return has text on both sides of it within its line |
| EventLog.IncrementalEventLog.Poll | src/bakar/eventlog.py:763-800 | any poll, with bytes appended while it reads and an I/O fault at opening, at sizing or after any line, keeps the state the fold of exactly the complete lines up to the offset, and those are the lines of the log from where the poll started; one that is not cut short ends at the last newline |
| EventLog.VisibleChanges | src/bakar/eventlog.py:763-800 | appending, replacing under another inode or below the offset, removing, and polling, cut short or not, are changes the reader can tell |
| EventLog.PollSees | src/bakar/eventlog.py:763-800 | a poll ends with exactly the log up to its last newline read if and only if the log it found was visibly another one or began with what was read |
| EventLog.PolledReaderAgrees | src/bakar/eventlog.py:719-815 | after any history of visible changes and of polls cut short anywhere, a poll that comes to its end agrees with `normalize` on the log cut at its last newline, and `skipped_lines` is positive exactly when `normalize` would raise |
| EventLog.CutShortStaysInLog | src/bakar/eventlog.py:763-800 | in every such history a reader that still follows the log has read exactly a prefix of it that ends at a line |
| EventTail.TailEvents | src/bakar/eventlog.py:282-319 | for every interleaving with the writer: the decodable lines that text mode ends, in order, each once, never a partial one, and on stop every such line in the log at the final read |
| EventTail.YieldedIsText | src/bakar/eventlog.py:282-319 | what is yielded from a log that ends at a line is what reading it in text mode decodes to |
| Ceiling.Judge | src/bakar/diagnostics.py:2183-2234 | blocks if and only if some sibling disagrees, passes if and only if every sibling was read and agrees, and names exactly the peers, disagreements and unreadable records |
| Ceiling.InvAlways | src/bakar/diagnostics.py:2104-2234 | the rendezvous invariant over every interleaving of any number of nodes' publish and read steps |
| Ceiling.PassedNodesAgree | src/bakar/diagnostics.py:2085-2234 | whenever two nodes' latest checks have passed, their ceilings and their records are the same |
| Ceiling.SecondPublisherNeverPasses | src/bakar/diagnostics.py:2104-2110 | of two latest checks with different ceilings the one that published second never passes |
| Ceiling.LoneCheckPasses | src/bakar/diagnostics.py:2112-2116 | a node whose directory holds at most its own record passes |
| Ceiling.SharedHostnameDefeatsCheck | src/bakar/diagnostics.py:2085-2234 | two machines that share a hostname can both pass with different ceilings |
| Markup.UnparseParse | src/bakar/diagnostics.py:983-1001 | a string and its reading as runs of backslashes determine each other |
| Markup.IsTagParsed | src/bakar/diagnostics.py:983-983 | a tag-like token as the pattern reads it in the string is one in the reading by runs |
| Markup.MatchExact | src/bakar/diagnostics.py:983-983 | a match found at a position is what the pattern asks for there, its pairs are the only ones possible and its token is the shortest, and none is missed |
| Markup.SubstituteIsOnRuns | src/bakar/diagnostics.py:983-1001 | the left-to-right substitution on strings, with lookbehind, backtracking pairs and resuming after each token, is the substitution on runs |
| Markup.ScanSettlesRuns | src/bakar/diagnostics.py:983-1001 | and that settles exactly the runs before tag-like tokens and skips none |
| Markup.SafeOutput | src/bakar/diagnostics.py:983-1001 | in the output every tag-like token is preceded by an odd run of backslashes; the output is the input if and only if that already held |
| Markup.Idempotent | src/bakar/diagnostics.py:983-1001 | for every string, applying it twice is applying it once |
| Markup.OnlyTagRunsChange | src/bakar/diagnostics.py:983-1001 | nothing outside the runs before tags is altered; an even run of n becomes 2n + 1 and an odd run stays |
| Markup.PrintedExact | src/bakar/diagnostics.py:986-1001 | under the console's documented reading the text is printed as recorded if and only if it has neither of the two limits the documentation names |
| Versions.RenderIsRead | src/bakar/elfscan.py:63-75 | a version is read as numbers: every tuple is read back from its dotted decimal form |
| Versions.LessIsTotalOrder | src/bakar/elfscan.py:63-75 | version tuples are compared by a strict total order: irreflexive, asymmetric, transitive and total |
| Versions.NodesAbove | src/bakar/elfscan.py:510-517 | the nodes above the ceiling, each once, in ascending order |
| LeakScan.ResolveNeeded | src/bakar/elfscan.py:439-498 | the loop computes the first-found rule, or whether anything was refused |
| LeakScan.ResolvedExact | src/bakar/elfscan.py:439-498 | the result is the first candidate found, a file inside the permitted roots; or none is found and refused says exactly whether a candidate was out of the roots |
| LeakScan.ResolutionIsConfined | src/bakar/elfscan.py:439-498 | file systems that agree inside the permitted roots resolve alike: nothing outside can influence the result |
| LeakScan.ScanNativeTree | src/bakar/elfscan.py:687-839 | despite the cache and the deferred classification: leaks, lines, counts and exclusions are the sums, over the files, of what each file contributes by itself against the finished provider index |
| LeakScan.OrderIndependent | src/bakar/elfscan.py:687-839 | any two traversal orders of the same files give the same leaks and lines as multisets, the same artifacts and the same tallies |
| LeakScan.EveryDependencyAccounted | src/bakar/elfscan.py:687-839 | settled quietly, reported and excluded dependencies together number the declared ones, with one line more per unreadable file |
| LeakScan.RefusedIsNeverExcluded | src/bakar/elfscan.py:596-675 | a dependency the confinement refused is reported as out of scope whatever the index holds |
| LeakScan.ProvidedIsCovered | src/bakar/elfscan.py:596-675 | an exclusion as provided loses nothing: some walked file behind that name had its own nodes held against the ceiling, or a line says it cannot be read, or it has no dynamic section |
| GracefulWait.Wait | src/bakar/build_stop.py:333-412 | for every history of answers, clocks and Ctrl-C: it ends in the first round that is not steady; drained exactly on a dead answer, lost exactly when a full window of errors ends there; escalation once if escalated, twice exactly when a Ctrl-C hits an escalation, otherwise never; and what is rendered |
| GracefulWait.HintsArePeriodic | src/bakar/build_stop.py:378-402 | hints are at least the interval apart, and a spinner without one is less than an interval after a hint or the start |
| GracefulWait.EndsInTime | src/bakar/build_stop.py:360-390 | with a positive grace and a clock advancing at least one poll per sleep it ends within one round more than the polls that fill the grace |
| StopLadder.Kernel.Signal | src/bakar/proc_tree.py:317-348 | a number that is not positive is refused and nothing is sent |
| StopLadder.EscalateHost | src/bakar/build_stop.py:615-691 | the questions and signals are exactly those of the ladder: verification, SIGTERM to each target in order, and only if something was delivered one sleep and SIGKILL to the survivors; the audit list is exactly the delivered signals to scoped processes |
| StopLadder.EscalateProcessTree | src/bakar/build_stop.py:694-735 | the same ladder, with a group only when the child leads it |
| StopLadder.Ladder.AddedIsTrace | src/bakar/build_stop.py:615-691 | what the ladder adds to a trace is the trace the safety results are about |
| StopLadder.LadderIsSafe | src/bakar/build_stop.py:615-691 | for all answers: the lock process is signalled only after it was verified with no sleep in between; SIGKILL only after a delivered SIGTERM, the sleep, and an alive answer since; no number that is not positive is signalled |
| StopLadder.OnlyTheLedGroup | src/bakar/build_stop.py:694-735 | no group but the child's own is ever signalled, and that one only when the child leads it |
| StopLadder.EveryoneIsSignalled | src/bakar/build_stop.py:615-691 | every target is sent SIGTERM, and after the sleep SIGKILL unless found gone or, for the lock process, no longer verified |
| StopLadder.LockNumberVerifiedExact | src/bakar/build_stop.py:615-691 | the number in the lock file is safe from an unverified signal for all answers if and only if it is neither the group of the first layer nor found by the search by arguments |
| StopRun.LockMutationGuard | src/bakar/build_stop.py:933-977 | passes if and only if the marker names this node, or there is no owner and the file system is known to be local; the four verdicts otherwise |
| StopRun.Workspace.ReportStaleCleanup | src/bakar/build_stop.py:1006-1036 | removes the stale files that can be unlinked, if and only if the guard passes and nothing holds the lock |
| StopRun.Workspace.VerifyClean | src/bakar/build_stop.py:1039-1086 | each thing that remains is reported if and only if its probe says so, leaving out what a refusing guard says is not this node's to judge; nothing is reported exactly when all are clear |
| StopRun.StopContainer | src/bakar/build_stop.py:432-512 | exactly which signals are sent, in order: the interrupt and its fallback, the wait's escalations or the ladder at once, and the last report; it is incomplete exactly when a ladder ran and the container was not reported gone |
| StopRun.CleanupJustified | src/bakar/build_stop.py:1006-1036 | each removal of a stale file comes after a passing guard and an empty holder scan and, for a container, a report that it is gone, with nothing in between |
| StopRun.StopContainerRun | src/bakar/build_stop.py:1269-1363 | for every answer: with a label and a runtime the launch record goes if and only if the stop returns True; True means a container reported dead and a clean verification; which files are left, whether or not the stop request could be written; the first signal; every removal was justified |
| StopRun.StopHostRun | src/bakar/build_stop.py:1212-1267 | which files are left on each way out, never the launch record; exactly when it raises, when it interrupts the recorded group and whether that group was identified, and when it interrupts the server |
| StopRun.StopTheRun | src/bakar/build_stop.py:1182-1363 | a refusal up front sends no signal and changes no file; otherwise the guarantees of the two modes |
| ScopeSettle.ScopeIsIdle | src/bakar/build_scope.py:332-349 | idle if and only if the group could be read and holds only idle cookers |
| ScopeSettle.SettleScope | src/bakar/build_scope.py:381-424 | the first turn that does not go on decides: idle only on an idle sample, busy only at or after the deadline, absent only when unloaded; the count of sleeps |
| ScopeSettle.SettlingIsBounded | src/bakar/build_scope.py:411-424 | when the last sleep began before the timeout, as `SettleScope` ensures for every verdict, then with a clock advancing a poll per sleep all sleeps but the last fit in the timeout: `(sleeps - 1) * poll < timeout` |
| ScopeSettle.LaunchInScope | src/bakar/build_scope.py:522-557 | if no sample is idle the launch neither stops nor renames the scope; the deciding sample has it stopped exactly when idle with resource controls and renamed exactly when idle without |
| ScopeSettle.ExpandEscape | src/bakar/build_scope.py:576-585 | the program is handed every escaped word unchanged, in every environment |
| ScopeSettle.UnescapedExact | src/bakar/build_scope.py:561-572 | unescaped text comes through unchanged in every environment if and only if it has no doubled dollar and no closed braced name after one |
| CaptureSelect.SelectCapture | src/bakar/buildstats.py:320-372 | a capture is chosen if and only if it is the one named nearest the start (first in name among equals), or, with none named in the window, the only one last changed in it |
| CaptureSelect.EachGetsItsOwn | src/bakar/buildstats.py:320-372 | with names within d of the starts, d at most the slack and starts more than 2d apart, each build gets its own capture for any number of builds and overlapping windows |
| CaptureSelect.TwiceIsNeeded | src/bakar/buildstats.py:275-372 | at exactly 2d a build can be given another's capture |

## Left out

- HTTP, redirects, XML, decompression, pickle, JSON and hashing: uninterpreted functions or answers from outside.
- `validate_source_url`, the target index and the choice of selected repositories (`src/bakar/feed_mirror.py:742-780`): a run starts from its selection.
- `resolve_destination` and `os.path.realpath` as resolution of links: assumed away for the mirror, a function in the leak scan.
- Lock acquisition and the writer of the lock ownership marker: no mutual exclusion between nodes is claimed.
- Real processes, procfs, systemd, docker and git: only their answers appear.
- The other checks of `diagnostics.py`, the gating of `run_all`, and all rendered text: independent branch tables.
- The choice of the newest live run in `stop_build` and the container fallback of `escalate_container_tree`: the stop of a chosen run is modelled.
- `stop_running_proc`, `check_unclean_stop`, `latest_capture`, `read_run`: easy members beside the ones modelled.
- The producing recipe in a leak's line, and the order of lines in a report: lines and leaks are compared as multisets.
- The host block of the artifact and the check of positive integers in it: copies of settings.
- The name of a scope unit and the properties it carries: text; whether there are any is an input.
- EventLog.IncrementalEventLog.Poll: truncation or replacement of the log while a single poll is reading is not modelled; bytes may be appended before every line it reads, and the log may be changed in any way between polls.
- EventTail.TailEvents: the tailer follows one log that is only appended to, as the source does; it has no reset to model.
- LeakScan.ProvidedIsCovered: assumes that the walk meets every ELF file under its root by its real path.
- MirrorProgress.CompletableExact: says when a completing sequence of steps exists, not that every schedule completes.
- MirrorOwnership.ForeignRepositoryIsNeverWritten: repositories nested in another's `repodata` are excluded, because there it fails (`MirrorNested.ForeignIsSparedExact`).
- MirrorOwnership.PublishedIndexKeepsItsMarker: the same repositories are excluded, because there it fails (`MirrorNested.MarkerIsKeptExact`).
- Versions.NodesAbove: white space around a version is not stripped, and nodes with equal version numbers may come in any order.
- StopRun.StopHostRun: the signals of its escalation are one step here; `StopLadder` models them.
- StopRun.Workspace.RemoveRecord: the launch record can always be removed; an error raised by that removal is not modelled, in either kind of stop.
- StopRun.Workspace.VerifyClean: files are those this stop knows of; a peer creating one between cleanup and verification is not modelled.
- GracefulWait.Wait: a further Ctrl-C during the escalation that a Ctrl-C started, which leaves the function, is not modelled.
