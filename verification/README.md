# rpmmanager, modelled and proved in Dafny

rpmmanager builds RPM packages for many distributions, publishes them as a directory tree with
snapshots to roll back to, streams build logs to browsers, and protects its login with a rate limiter
and a proof of work. These files model the parts of it that carry state or arithmetic and prove what
they promise.

`dafny verify dfyconfig.toml` checks everything.

| files | what they model |
|---|---|
| `Words`, `JsNumbers`, `Fips180`, `RoundConstants`, `Sha256` | SHA-256 on JavaScript numbers, proved against FIPS 180-4 on 32-bit words, whose constants are proved to be roots of primes |
| `Hex`, `Decimals`, `ProofOfWork` | the digest text, numbers in base ten, and the batched search of the login page |
| `RateLimiter`, `LoginRuns`, `Challenge`, `AuthHandler` | timed login protection with an integer-nanosecond clock |
| `Names`, `FileTree`, `FileSystem`, `Snapshots`, `Publish`, `KeptPackages`, `Rollback`, `SnapshotRuns`, `Timestamps`, `SnapshotTimes` | file trees, the recursive copy, publish, prune and rollback, and snapshots by the times in their names |
| `Links`, `WalkOrder`, `AliasSnapshots` | where symbolic links lead, and what a snapshot keeps of a tree with aliases |
| `BuildStatus`, `BuildProtocol`, `BuildGuarantees`, `BuildEndings`, `BuildService` | builds as a transition system, what every run of it keeps, how builds end, the service objects |
| `Pipeline`, `ProductIsolation`, `ConcurrentRuns`, `TempDirs` | one pipeline run on the disk, and two of different products at once |
| `LogWriter`, `LogStream`, `LogLines`, `SplitText`, `Subsequences` | the build log, its broadcast, the websocket viewer and its lines |
| `DistroMap`, `StageBuild` | distributions, product lines, the build stage and its aliases |
| `Wrappers` | values that may be absent |

How the pieces fit: code that updates things in place is a class or a method with loops, and each such
method is proved against a function of the old state; the properties are lemmas about those functions and
about runs of them. Concurrency is a state machine whose steps are the critical sections of the code.

## What turned out

- The length field of the padding holds only the low 32 bits of the bit length. The padding is the
  standard's exactly below 2^29 bytes (`Sha256.PaddingIsStandard`), and is injective at every length.
- The snapshot copy stops at the first symbolic link that leads to a directory; publish only logs the failed
  copy and then removes production. A snapshot holds exactly the paths that the walk reaches before every such
  link (`WalkOrder.SnapshotHolds`). The aliases that the build stage makes are such links, so the packages of
  `el8` are kept exactly when no requested distribution whose name comes before `el8` (alinux, alma, amzn,
  anolis, centos) has an alias (`AliasSnapshots.LineKept`), and those of Fedora are never kept for an
  architecture such as `x86_64`, because its own aliases `fedora/42` and `fedora/43` come first
  (`AliasSnapshots.FedoraLost`). Rollback restores the old tree
  exactly when it has no link (`SnapshotRuns.RollbackUndoesPublish`), and of a tree with aliases exactly the
  paths before every alias (`AliasSnapshots.RollbackOfAliases`).
- `blockThreshold` is five. That bounds the failures between two blocks only when logins of one address
  do not overlap: with c of them at once the bound is c + 4, and it is reached (`LoginRuns.SpacingIsExact`).
- A payload is accepted once exactly when no caller waits more than one minute between the expiry check
  and the lock (`Challenge.OnceExactlyWhenPrompt`).
- Cancelling through a build id reaches that build exactly while its goroutine has not left `running`; after
  that it cancels the later build of the product that is registered then, if there is one
  (`BuildEndings.CancelReaches`, `BuildEndings.OldIdCancelsNewBuild`).
- A product whose build lost its terminal status write, because the database failed then, cannot be built again
  while its row stays so (`BuildEndings.CanBuildAgain`).
- A channel is closed exactly when it was registered before the log was closed or is unsubscribed
  (`LogWriter.ClosedExactly`), so a viewer that subscribes after Close is never told that the build finished
  (`LogWriter.LateSubscriberStaysOpen`).
- Preserving the repository packages gives them new modification times, so the three newest that are kept are
  the last three by name, up to packages written at the same time (`KeptPackages.LastPackagesStay`).
- The build stage fails when an alias is the directory of an architecture, as `fedora/42` is for an architecture
  `42` (`StageBuild.CollidesMeans`).
- Two products can use the same temporary directory for two architectures exactly when one of these is the
  other after the id of a built-in line and a dash, with or without the tail of a product name and a dash before
  that (`TempDirs.SharesExactly`). Product `ab` with `el8-x` and product `ab-el8` with `x` share one.
- A viewer that finds no log writer, because the build has ended since it read the file, is told that the build
  finished but never gets what was written in between (`LogStream.FinishedViewerSees`).
- A log message that starts with a newline, as every stage heading does, shows as one more empty line
  (`LogLines.LinesOfTheText`).
- README.md:435 of the repository shows the challenge field as `maxnumber`; PowCaptcha.tsx:9 reads
  `maxNumber`. The model follows the code: a missing field is `None`, and the search then tries nothing.

## Model

| member | source | states |
|---|---|---|
| `Words.OperationBits` | web/src/lib/pow/sha256.ts:61-73 | the bitwise operators act on each of the 32 bits by itself |
| `Words.RotrBit` | web/src/lib/pow/sha256.ts:23-25 | rotation moves bit (i + n) mod 32 to place i |
| `Words.BitsDetermine` | web/src/lib/pow/sha256.ts:23-25 | a word is determined by its bits, so the bit laws fix the operations |
| `JsNumbers.SumReduces` | web/src/lib/pow/sha256.ts:63 | `\| 0` after an exact sum is addition modulo 2^32 |
| `JsNumbers.OperatorWords` | web/src/lib/pow/sha256.ts:61-73 | signed operators on JavaScript numbers are the word operations, whatever sign the operands are read with |
| `Fips180.ZeroBytes` | web/src/lib/pow/sha256.ts:42 | the number of zero bytes is the least that ends the padding on a block boundary |
| `Fips180.PaddingRule` | web/src/lib/pow/sha256.ts:40-51 | counted in bits, that is the least k of section 5.1.1 of FIPS 180-4 |
| `Fips180.WordBytes` | web/src/lib/pow/sha256.ts:97-105 | four big-endian bytes that read back as the word |
| `Fips180.WordAtBits` | web/src/lib/pow/sha256.ts:56-58 | a word is read from four bytes with its most significant bit first |
| `Fips180.ChooseAndMajority` | web/src/lib/pow/sha256.ts:70-73 | bit by bit, Ch chooses by its first argument between the others and Maj is what at least two of the three have |
| `Fips180.SigmaBits` | web/src/lib/pow/sha256.ts:61-72 | each bit of the four Sigma functions is the parity of three bits of the argument, at the places of section 4.1.2; a shift brings in zeros |
| `Fips180.PadBits` | web/src/lib/pow/sha256.ts:40-51 | the padded message in bits is the message, a one, zeros, and in the last 64 bits the bit length, with less than a block added |
| `Fips180.DigestWords` | web/src/lib/pow/sha256.ts:96-106 | the digest is the eight words of the hash value in order |
| `RoundConstants.PrimesAreFirst` | web/src/lib/pow/sha256.ts:4-21 | the table of primes is ascending and up to 311 holds all primes and nothing else, so it is the first 64 |
| `RoundConstants.RoundConstantsAreRoots` | web/src/lib/pow/sha256.ts:4-21 | round constant i is the first 32 bits of the fractional part of the cube root of prime i (section 4.2.2) |
| `RoundConstants.InitialIsRoots` | web/src/lib/pow/sha256.ts:28-35 | initial hash word i is the first 32 bits of the fractional part of the square root of prime i (section 5.3.3) |
| `Sha256.RightRotateRotates` | web/src/lib/pow/sha256.ts:23-25 | rightRotate on signed or unsigned numbers is ROTR of the word they stand for |
| `Sha256.NextWordMatches` | web/src/lib/pow/sha256.ts:60-64 | a schedule step on int32 values, summed without rounding, is the standard's schedule word |
| `Sha256.FillSchedule` | web/src/lib/pow/sha256.ts:56-64 | the two loops fill w with the 64 schedule words of the block |
| `Sha256.Temp1Matches` | web/src/lib/pow/sha256.ts:69-71 | temp1, where unsigned K[i] and initial values mix with signed words, is the standard's T1; every partial sum is exact in a double |
| `Sha256.RoundMatches` | web/src/lib/pow/sha256.ts:68-84 | a round on JavaScript numbers is the round of section 6.2.2 on the words they stand for |
| `Sha256.CompressBlock` | web/src/lib/pow/sha256.ts:66-93 | 64 rounds and the chaining update compute the standard's next hash value |
| `Sha256.PadMessage` | web/src/lib/pow/sha256.ts:37-51 | the in-place buffer is message, 0x80, zeros, and the low 32 bits of the bit length |
| `Sha256.SetUint32` | web/src/lib/pow/sha256.ts:51 | stores the low 32 bits big-endian and leaves the rest alone |
| `Sha256.ResultBytes` | web/src/lib/pow/sha256.ts:96-106 | the 32 result bytes are the eight words in order |
| `Sha256.PaddingIsStandard` | web/src/lib/pow/sha256.ts:48-51 | the padding is that of section 5.1.1 exactly for messages below 2^29 bytes |
| `Sha256.PaddingIsInjective` | web/src/lib/pow/sha256.ts:37-51 | two messages of any length with the same padding are equal |
| `Sha256.Sha256Hash` | web/src/lib/pow/sha256.ts:27-107 | below 2^29 bytes the digest is SHA-256 of FIPS 180-4; at every length it is the standard chain over the source's padding |
| `Hex.ToHex` | web/src/lib/pow/sha256.ts:114-120 | the loop builds the hexadecimal text |
| `Hex.HexReadsBack` | web/src/lib/pow/sha256.ts:114-120 | two lower-case digits a byte, decoding to the bytes |
| `Decimals.DecimalReadsBack` | web/src/components/pow/PowCaptcha.tsx:45 | a candidate is written with digits 0-9 that read back, most significant first, as the number, and without a leading zero unless it is 0 |
| `Decimals.DecimalUnique` | web/src/components/pow/PowCaptcha.tsx:45 | every text of digits without a leading zero is what is written for the number it stands for |
| `ProofOfWork.Sha256Text` | web/src/lib/pow/sha256.ts:122-124 | the text digest of an encoded message; SHA-256 below 2^29 bytes |
| `ProofOfWork.ProgressMonotone` | web/src/components/pow/PowCaptcha.tsx:57 | reports lie between 0 and 99 and never fall, however doubles are rounded as long as rounding keeps the order |
| `ProofOfWork.PercentMeans` | web/src/components/pow/PowCaptcha.tsx:57 | without rounding a report is the whole percent that is done, cut at 99 |
| `ProofOfWork.LastReport` | web/src/components/pow/PowCaptcha.tsx:57 | the last report is 99 for every rounding that is exact at 1 and 100 |
| `ProofOfWork.SolveChallenge` | web/src/components/pow/PowCaptcha.tsx:33-62 | returns the least matching number with the challenge's fields; if not cancelled, null exactly when none in 0..maxNumber matches; if cancelled before batch b, no number below that batch matches |
| `RateLimiter.Limiter.Check` | internal/auth/ratelimit.go:38-68 | answers by the entry and deletes it when its block is over |
| `RateLimiter.Limiter.RecordFailure` | internal/auth/ratelimit.go:70-81 | counts one more failure at the current time, for this address only |
| `RateLimiter.Limiter.Reset` | internal/auth/ratelimit.go:83-87 | forgets this address only |
| `RateLimiter.Limiter.Cleanup` | internal/auth/ratelimit.go:101-108 | the loop keeps exactly the entries not older than 30 minutes |
| `RateLimiter.CleanupIsUnseen` | internal/auth/ratelimit.go:38-108 | a cleanup forgets exactly what is more than 30 minutes old, and no answer given from then on differs from the one without the cleanup |
| `RateLimiter.WaitIsLeast` | internal/auth/ratelimit.go:38-68 | a refused address is told the least number of whole seconds after which it would be admitted |
| `RateLimiter.BackoffSchedule` | internal/auth/ratelimit.go:45-65 | after its n-th failure an address is admitted again exactly when 1, 2, 4 or 8 seconds have gone by for n below five, and 15 minutes from then on |
| `LoginRuns.StepEvolves` | internal/auth/ratelimit.go:38-111 | no step other than a failure or success changes a count, except to forget it after the block duration |
| `LoginRuns.FailuresAreSpaced` | internal/handler/auth_handler.go:51-102 | with at most c logins of an address at once, any c + 5 consecutive failures without a success span 15 minutes, whatever cleanups and challenge requests come between |
| `LoginRuns.WindowHoldsFew` | internal/auth/ratelimit.go:9-14 | a stretch of time T holds at most (c + 4) * (floor(T / 15 min) + 1) such failures |
| `LoginRuns.SpacingIsExact` | internal/auth/ratelimit.go:38-81 | c + 5 is the least such number: a run with c logins at once has c + 4 failures within 15 seconds |
| `Challenge.Service.Verify` | internal/auth/challenge.go:41-56 | accepts exactly a valid payload not remembered as used, and then remembers it |
| `Challenge.Service.CleanupUsed` | internal/auth/challenge.go:70-77 | the loop forgets exactly what is more than six minutes old, the challenge's life plus one minute |
| `Challenge.AcceptedOnce` | internal/auth/challenge.go:41-80 | no run in which callers wait at most one minute accepts a payload twice |
| `Challenge.LateReplayAccepted` | internal/auth/challenge.go:73 | with any longer wait there is a run that accepts a payload twice |
| `Challenge.OnceExactlyWhenPrompt` | internal/auth/challenge.go:10-80 | accept-once holds for all runs exactly when the wait is at most one minute |
| `AuthHandler.Handler.Challenge` | internal/handler/auth_handler.go:34-49 | refused exactly while the address is blocked, not during a backoff; its limiter call is one Ask of LoginRuns |
| `AuthHandler.Handler.Login` | internal/handler/auth_handler.go:51-102 | exactly when each status is answered, what becomes of the challenge memory, and that its limiter calls are one Begin followed by the Fail, Succeed or Abandon of LoginRuns: a refused proof or password counts one more failure at the end of the request, a login forgets them, and other addresses keep theirs |
| `Names.LessMeans` | internal/pipeline/stage_publish.go:97 | a name comes before another when it has the smaller character at the first place where they differ, or is a proper beginning of it |
| `Names.Sort` | internal/pipeline/stage_publish.go:97 | ascending order of a set of names |
| `Names.OrderUnique` | internal/pipeline/stage_publish.go:97 | a set of names has only one ascending order |
| `Timestamps.TimesCount` | internal/pipeline/stage_publish.go:37 | counting the seconds of calendar dates and times, leap years included, keeps the order of the fields and tells all times apart |
| `Timestamps.StampOrder` | internal/pipeline/stage_publish.go:37 | the names YYYYMMDD-hhmmss of two times are in the order of their seconds and equal only for equal times |
| `FileTree.CopyIsExact` | internal/pipeline/stage_publish.go:151-197 | a copy to a free place equals the tree exactly when the tree has no symbolic link |
| `FileTree.CopyIsWalked` | internal/pipeline/stage_publish.go:151-197 | a copy holds exactly the items walked before the first link that cannot be read, links as files, and reports success exactly when there is no such link |
| `FileSystem.Disk.Rename` | internal/service/repo_service.go:194 | moves a tree, or fails and changes nothing; it never replaces a directory |
| `Snapshots.CopyTree` | internal/pipeline/stage_publish.go:179-197 | the walk with its callback, as recursion and loops, is the copy |
| `Snapshots.CopyTop` | internal/pipeline/stage_publish.go:152-176 | passing over the excluded names while walking copies the tree without them |
| `Snapshots.PrunedKeepsNewest` | internal/pipeline/stage_publish.go:84-108 | pruning leaves exactly the newest min(keep, n) snapshots |
| `Snapshots.CleanKeepsNewest` | internal/pipeline/stage_publish.go:110-149 | exactly min(3, n) packages stay, none older than one that goes, and nothing else changes |
| `Snapshots.RpmByExt` | internal/pipeline/stage_publish.go:124 | the packages are the files whose extension, what is from the last dot on, is `.rpm` |
| `Publish.CopyDir` | internal/pipeline/stage_publish.go:152-197 | copies between two paths of the disk, merging into what is there |
| `Publish.Preserve` | internal/pipeline/stage_publish.go:21-33 | copies the repository packages of production into staging |
| `Publish.MoveHistory` | internal/pipeline/stage_publish.go:39-47 | moves the snapshots of production into staging, or makes an empty directory for them; does nothing when staging already has an entry of that name |
| `Publish.BackUp` | internal/pipeline/stage_publish.go:35-60 | records a snapshot of production without its history in staging and removes production; nothing is recorded when staging holds a `.rollback` that is not a directory |
| `Publish.MergeStaging` | internal/pipeline/stage_publish.go:21-60 | completes staging with the preserved packages and the history, and removes production |
| `Publish.Swap` | internal/pipeline/stage_publish.go:62-69 | staging becomes production in one rename |
| `KeptPackages.PlacesFollowNames` | internal/pipeline/stage_publish.go:179-197 | a copy writes the files of a directory in the order of their names |
| `KeptPackages.LastPackagesStay` | internal/pipeline/stage_publish.go:21-33 | with the times at which preserving writes them, three packages stay: exactly the last by name when the clock moves on between writes; with a coarse clock an earlier name outlives a later one only when their times are equal |
| `Publish.CleanOldBackups` | internal/pipeline/stage_publish.go:84-108 | the loop over the sorted names removes exactly the snapshots that have `keep` newer ones; every other entry of the product stays as it was, also when it has no history |
| `Publish.CleanOldRepoRpms` | internal/pipeline/stage_publish.go:111-149 | the loop removes all but the last three packages in age order |
| `Publish.StagePublish` | internal/pipeline/stage_publish.go:18-82 | production becomes staging with preserved packages and pruned history: outside these two every staged entry is there with its node and nothing else is; staging is gone, and no other entry of the root changes |
| `Publish.PublishedIsStaged` | internal/pipeline/stage_publish.go:62-78 | with or without an old production, an entry other than the history and the repository packages is in the new production exactly when it was staged, with the same node |
| `Publish.PublishedSnapshots` | internal/pipeline/stage_publish.go:35-75 | the history is that of staging when there was no production, and otherwise that of production with the new snapshot; pruned in both cases |
| `Publish.StagedPackagesStay` | internal/pipeline/stage_publish.go:21-149 | staged repository packages without old ones are only cleaned: three packages, or all when there are fewer, and everything that is no package stay; with old ones nothing staged under another name is lost before the cleaning |
| `Publish.PreservedReplaces` | internal/pipeline/stage_publish.go:179-197 | a preserved file replaces the staged file of its name |
| `Rollback.Rollback` | internal/service/repo_service.go:175-219 | exactly when it succeeds; then production is the snapshot with the other snapshots; otherwise, also when the second rename fails and is undone, the disk is as before |
| `Rollback.ListRollbacks` | internal/service/repo_service.go:152-172 | exactly the snapshot names of a product, in descending order; of two names of times the later time comes first |
| `Rollback.StampAccepted` | internal/service/repo_service.go:180-182 | rollback accepts the name of every snapshot that publish writes |
| `SnapshotRuns.PublishKeepsSnapshots` | internal/pipeline/stage_publish.go:35-75 | a publish keeps every remaining snapshot as it was, adds its own, and leaves the newest min(keep, n + 1) |
| `SnapshotRuns.RollbackKeepsSnapshots` | internal/service/repo_service.go:201-213 | a rollback puts the snapshot in place and keeps all others unchanged |
| `SnapshotRuns.RunIsGood` | internal/pipeline/stage_publish.go:18-82 | every publish and rollback keeps every snapshot faithful to what its publish replaced |
| `SnapshotRuns.SnapshotsAreFaithful` | internal/pipeline/stage_publish.go:49-54 | after any run each snapshot is what was walked of the tree its publish replaced, has no history of its own, and equals that tree exactly when it has no link |
| `SnapshotRuns.RollbackUndoesPublish` | internal/service/repo_service.go:184-216 | publishing and rolling back to the new snapshot restores the old tree exactly when it had no link; the snapshots left by the publish are unchanged |
| `SnapshotTimes.PrunedByTime` | internal/pipeline/stage_publish.go:84-108 | pruning snapshots named after times keeps exactly those of the latest min(keep, n) times |
| `SnapshotTimes.PublishKeepsLatest` | internal/pipeline/stage_publish.go:35-75 | after a publish the snapshots are those of the latest min(keep, n + 1) times, keep being 3 when it is not positive; the new one is among them, the others are unchanged, and every time that stays is later than every time that goes |
| `SnapshotTimes.RunStandsForTimes` | internal/pipeline/stage_publish.go:37 | in every run of publishes and rollbacks the snapshots stand for a set of times |
| `Links.WalkAlias` | internal/pipeline/symlink.go:20-33 | a link in a top-level directory whose target goes up once leads, as the system follows it, to that place of the tree |
| `Links.AliasUnreadable` | internal/pipeline/stage_publish.go:170-173 | such a link to a directory cannot be read as a file |
| `WalkOrder.ListingOrdered` | internal/pipeline/stage_publish.go:153-175 | the items of a tree are walked in the order of their paths, a directory before what is in it |
| `WalkOrder.SnapshotHolds` | internal/pipeline/stage_publish.go:152-176 | a snapshot holds exactly the paths that come before every link that cannot be read |
| `WalkOrder.SnapshotContent` | internal/pipeline/stage_publish.go:166-175 | what a snapshot holds at a path is what the tree has there, a link made into a file with what it reads |
| `AliasSnapshots.AliasesUnreadable` | internal/pipeline/symlink.go:20-33 | in a tree with the build stage's aliases the unreadable links are exactly the aliases, by following them in the tree |
| `AliasSnapshots.KeptBeforeAliases` | internal/pipeline/stage_publish.go:152-176 | a snapshot of such a tree holds exactly the paths that come before every alias in walk order |
| `AliasSnapshots.RollbackOfAliases` | internal/service/repo_service.go:184-216 | publishing over a tree with aliases and rolling back brings back exactly the paths before every alias, with what was there, and nothing else |
| `AliasSnapshots.LineKept` | internal/pipeline/stage_publish.go:152-176 | the packages of a line are kept exactly when its directory comes before every distribution with an alias |
| `AliasSnapshots.FedoraLost` | internal/distromap/defaults.go:49-50 | Fedora's packages are lost as soon as it has an alias that comes before the architecture |
| `AliasSnapshots.AliasEndsSnapshot` | internal/pipeline/stage_publish.go:166-173 | a concrete tree with an alias whose snapshot loses all packages, with links read in the tree itself |
| `AliasSnapshots.StagedHasNoHistory` | internal/pipeline/stage_publish.go:39-47 | a tree that shows what StageBuild left has no `.rollback` entry, as the runs of publishes assume |
| `AliasSnapshots.StagedHasAliases` | internal/pipeline/stage_build.go:62-66 | a tree that shows what StageBuild left has its aliases, each leading to a directory, and no other links |
| `BuildProtocol.StepInv` | internal/service/build_service.go:117-128 | every step of a build goroutine keeps the invariant, also when its database write fails |
| `BuildProtocol.TriggerInv` | internal/service/build_service.go:46-117 | every step of TriggerBuild under the mutex keeps the invariant |
| `BuildProtocol.NextInv` | internal/service/build_service.go:46-195 | every step of every participant keeps the invariant |
| `BuildProtocol.RunInv` | internal/service/build_service.go:46-195 | the invariant holds after every interleaving |
| `BuildGuarantees.OneBuildAtATime` | internal/service/build_service.go:46-128 | each product has at most one registered goroutine and one running row, and an exiting goroutine finds its own entry |
| `BuildGuarantees.StatusHistory` | internal/pipeline/pipeline.go:39-115 | the statuses a build writes are a prefix of the stages and then at most one terminal one; the row has exactly those whose write did not fail, in order; success in the row means all four stages passed |
| `BuildGuarantees.TerminalIsFinal` | internal/repository/build_repo.go:127-145 | no step writes a row whose status is terminal |
| `BuildGuarantees.TerminalStays` | internal/repository/build_repo.go:127-145 | a terminal row stays as it is for ever |
| `BuildGuarantees.CancelStopsStages` | internal/pipeline/pipeline.go:92-98 | after a build's context is cancelled no stage begins except one whose check had passed |
| `BuildGuarantees.BuildsEnd` | internal/service/build_service.go:117-140 | a goroutine takes at most 19 steps, and when done has no entry in running or logWriters |
| `BuildEndings.CanEnd` | internal/service/build_service.go:117-140 | from every state of every run a build can be done within 25 steps, all its own or of the TriggerBuild that holds the mutex, whatever their calls answer; then nothing of it is registered |
| `BuildEndings.RunNewest` | internal/service/build_service.go:46-117 | in every run the registered build of a product is its newest |
| `BuildEndings.CancelReaches` | internal/service/build_service.go:179-195 | in every run, cancelling through a build id reaches that build exactly while its goroutine has not left `running`, otherwise the later build that is registered, if any, and nothing else |
| `BuildEndings.RunningUntilRecorded` | internal/repository/build_repo.go:136-154 | the row of a build counts as running exactly until its terminal status has been stored |
| `BuildEndings.RunningIsReached` | internal/service/build_service.go:179-195 | a build whose row is running and whose writes were all stored is always reached by a cancellation through its id |
| `BuildEndings.OldIdCancelsNewBuild` | internal/service/build_service.go:179-195 | once a build has left `running`, a new build of the product starts, and a cancellation through the old id cancels the new build and not the old one |
| `BuildEndings.CanBuildAgain` | internal/service/build_service.go:50-63 | a product can be built again exactly when it is not registered, each of its builds in this process has stored its terminal status, and no other row of it is running |
| `BuildService.BuildRepo.Create` | internal/repository/build_repo.go:19-30 | inserts a pending row under a new id |
| `BuildService.BuildRepo.UpdateStatus` | internal/repository/build_repo.go:127-145 | writes the status of one row, or nothing when the database fails |
| `BuildService.BuildRepo.HasRunningBuild` | internal/repository/build_repo.go:147-154 | whether some row of the product has a non-terminal status |
| `BuildService.TriggeredIs` | internal/service/build_service.go:46-117 | the whole effect of the protocol's trigger steps, by the call that ends them |
| `BuildService.Service.TriggerBuild` | internal/service/build_service.go:46-177 | exactly when a build starts, and that the service's maps change as by the protocol's trigger steps |
| `BuildService.Service.CancelBuild` | internal/service/build_service.go:179-195 | cancels as by the protocol's two cancel steps, or fails and changes nothing |
| `BuildService.Service.Exit` | internal/service/build_service.go:118-128 | the deferred function is the protocol's last three steps |
| `BuildService.TriggeredInv` | internal/service/build_service.go:46-117 | one call of TriggerBuild keeps the invariant and leaves the mutex free |
| `Pipeline.Run` | internal/pipeline/pipeline.go:39-115 | by the answers of the calls: production is the published tree exactly when staging was made, build and sign passed and the checks before build, sign and publish found no cancellation, and otherwise the root is unchanged but for staging, which is gone; the run succeeds exactly when then the last check is clear and verify passes; the statuses written are listed for every case; every file operation touches only the product's places |
| `Pipeline.RunStage` | internal/pipeline/pipeline.go:59-89 | which call decides each stage, and what the stage leaves on the disk |
| `Pipeline.RunDecided` | internal/pipeline/pipeline.go:66-115 | the specification of a run says the same, without naming its stages by number |
| `Pipeline.GoroutineAgrees` | internal/pipeline/pipeline.go:39-115 | the protocol's goroutine with the same outcomes writes and passes exactly what Run does |
| `ProductIsolation.OwnApart` | internal/service/product_service.go:11 | products with valid different names have separate production, staging and rollback directories |
| `ProductIsolation.NamesAccepted` | internal/service/repo_service.go:17 | rollback takes every name that a product can have, and besides these only names with a dot or an underscore |
| `TempDirs.TempDirsApart` | internal/pipeline/stage_build.go:90-92 | different products use separate directories for downloads, and for packages unless one architecture hides the other, which takes a dash |
| `TempDirs.SharesExactly` | internal/pipeline/stage_build.go:90-92 | two different valid products and built-in lines with the same directory for two architectures exist exactly when one architecture hides the other |
| `ProductIsolation.FileStepsAreLocal` | internal/pipeline/stage_publish.go:18-82 | each rename, copy, removal, new directory and tool output reads and changes only the entries of the root its paths begin with |
| `ProductIsolation.EachSeesItsOwn` | internal/pipeline/pipeline.go:44-50 | in every interleaving of two runs in separate places each sees and leaves what it would alone |
| `ProductIsolation.AnyInterleaving` | internal/pipeline/pipeline.go:44-50 | every interleaving gives the tree of one run after the other |
| `ProductIsolation.InterleavedRuns` | internal/pipeline/pipeline.go:39-115 | however the file operations of the pipelines of two products interleave, the tree is that of running one after the other |
| `ConcurrentRuns.EachRunsAsAlone` | internal/service/build_service.go:117-140 | under every schedule two runs that decide by what they see in separate places remember and issue what they would alone |
| `ConcurrentRuns.PipelinesTogether` | internal/pipeline/pipeline.go:39-115 | pipelines of two products whose steps alone do what Run does leave, under every schedule of their steps, the tree of one after the other |
| `ProductIsolation.LocalStepsCommute` | internal/pipeline/pipeline.go:44-50 | such steps of two products commute |
| `ProductIsolation.RunsCommute` | internal/pipeline/pipeline.go:39-115 | pipelines of two products give the same tree in either order |
| `LogWriter.Writer.Write` | internal/pipeline/log.go:29-43 | appends the piece, or as much of it as the open file takes, and offers the piece to every subscriber with room |
| `LogWriter.Writer.Subscribe` | internal/pipeline/log.go:60-66 | registers a new empty channel under the id |
| `LogWriter.Writer.Unsubscribe` | internal/pipeline/log.go:68-75 | closes and forgets the channel of the id |
| `LogWriter.Writer.Close` | internal/pipeline/log.go:77-85 | closes and forgets every channel, then the file |
| `LogWriter.Offer` | internal/pipeline/log.go:35-40 | the broadcast loop reaches exactly the subscribed channels with room, once each |
| `LogWriter.CloseEach` | internal/pipeline/log.go:79-82 | the closing loop closes each subscribed channel once and no other |
| `LogWriter.RunGood` | internal/pipeline/log.go:29-85 | in every run ids name different open channels, buffers hold at most 256 items, and no channel is closed twice |
| `LogWriter.ClosedIsFinal` | internal/pipeline/log.go:29-85 | nothing is sent on a closed channel and it is not closed again |
| `LogWriter.StreamOf` | internal/pipeline/log.go:33-40 | a stream is a subsequence of what was written while subscribed, and all of it exactly when no write found the buffer full |
| `LogWriter.OfferedIsWritten` | internal/pipeline/log.go:29-43 | what was offered to a channel is a subsequence of everything written |
| `LogWriter.FileIsWrites` | internal/pipeline/log.go:29-33 | the file is the concatenation of the writes and offset is its length |
| `LogWriter.ClosedOrSubscribed` | internal/pipeline/log.go:60-85 | with fresh ids a channel has been closed once or is subscribed and open |
| `LogWriter.CloseClosesAll` | internal/pipeline/log.go:77-85 | after Close every channel registered before it has been closed exactly once |
| `LogWriter.ClosedExactly` | internal/pipeline/log.go:60-85 | in every run with one Close a channel is closed, once, exactly when it was registered before Close or is unsubscribed after it |
| `LogWriter.LateSubscriberStaysOpen` | internal/pipeline/log.go:60-66 | however the run goes on, a channel registered after Close under an id that is not used again stays subscribed and is never closed |
| `LogStream.BuildLog` | internal/handler/ws_handler.go:57-89 | the messages sent: the file if not empty, the stream up to a failed send, and the closing text exactly when the channel was closed |
| `LogStream.LaterStream` | internal/handler/ws_handler.go:71-89 | a channel's stream is what is written after its subscription exactly when every such write reaches it |
| `LogStream.FirstPiecesArrive` | internal/pipeline/log.go:35-61 | the channel of a subscriber carries all pieces written after it subscribed while these are at most 256, and exactly the first 256 when none is taken out |
| `LogStream.ViewerSees` | internal/handler/ws_handler.go:57-89 | a viewer gets pieces of the log in order and none twice; it gets the whole log exactly when nothing was written between file read and subscription and no later write missed its channel |
| `LogStream.FinishedViewerSees` | internal/handler/ws_handler.go:57-70 | a viewer that finds no log writer gets the file and the closing text; it saw the whole log exactly when nothing was written between file read and lookup |
| `SplitText.SplitConcat` | web/src/hooks/useWebSocket.ts:29 | splitting a concatenation glues the two lists of lines |
| `SplitText.JoinSplit` | web/src/hooks/useWebSocket.ts:29 | splitting loses nothing |
| `LogLines.LogView.OnMessage` | web/src/hooks/useWebSocket.ts:26-40 | the handler makes the lines of the next message |
| `LogLines.CapEarly` | web/src/hooks/useWebSocket.ts:35-38 | truncating before a message makes no difference after it |
| `LogLines.ShownIsAssembled` | web/src/hooks/useWebSocket.ts:26-40 | the viewer shows the last 10,000 lines of the text received, with one more newline before each later message that starts with one |
| `LogLines.LinesOfTheText` | web/src/hooks/useWebSocket.ts:32-37 | before the limit, the lines are those of the received text exactly when no later message starts with a newline |
| `DistroMap.ParseThenPrint` | internal/distromap/productline.go:17-29 | printing a parsed text gives it back exactly when it has a colon |
| `DistroMap.PrintThenParse` | internal/distromap/productline.go:17-29 | parsing a printed value gives it back exactly when its distribution has no colon |
| `DistroMap.GetLine` | internal/distromap/mapping.go:13-25 | the lookup finds a line with the id exactly when there is one |
| `DistroMap.ResolveMeans` | internal/distromap/mapping.go:7-28 | a distribution resolves exactly when the built-in table has it and a line has the id it gives, to a line of that id, a custom one when there is one |
| `DistroMap.ResolveAll` | internal/distromap/mapping.go:32-48 | succeeds exactly when every distribution resolves, with each line where its id first occurs |
| `DistroMap.FirstByIdMeans` | internal/distromap/mapping.go:41-44 | no id missing or repeated, order kept, and a shorter list gives a prefix |
| `DistroMap.SymlinksForDistros` | internal/distromap/mapping.go:53-69 | the aliases of the distributions whose path is not the line's own |
| `DistroMap.AliasTarget` | internal/distromap/mapping.go:60-66 | the alias of each distribution leads to its own line, however many are listed |
| `DistroMap.TableIsPlain` | internal/distromap/defaults.go:17-55 | every built-in distribution is a plain name and a plain version |
| `StageBuild.Staging.CreateSymlinks` | internal/pipeline/symlink.go:13-39 | makes every alias with its target, no other link, and counts them; succeeds when all distributions resolve and no alias path is a directory, fails when one does not resolve or an alias path has packages below it; loses no packages directory and leaves nothing hidden at the top |
| `StageBuild.AliasReaches` | internal/distromap/mapping.go:60-66 | the path of a distribution is, or is a relative link that leads to, its line's directory |
| `StageBuild.BuildLines` | internal/pipeline/stage_build.go:42-60 | makes exactly the packages directories of every line and architecture and counts the packages |
| `StageBuild.StageBuild` | internal/pipeline/stage_build.go:22-81 | on success the package count is lines times architectures, and every distribution reaches a directory with Packages for every architecture; nothing hidden, such as `.rollback`, is at the top of staging; from an empty staging tree and with no failing call it succeeds exactly when every distribution resolves and no alias path lies above packages |
| `StageBuild.CollidesMeans` | internal/pipeline/symlink.go:23-33 | an alias path lies above packages exactly when it is the directory of a built line or of an architecture in it |

## Left out

- File modification times and modes, except that the age order of repository packages is a parameter.
- Failures of the file system inside publish between removing production and the rename; the code has no recovery there.
- Publish.CopyDir: writing through a symbolic link that already stands at the destination counts as a failed write.
- SnapshotRuns.SnapshotsAreFaithful: publishes and rollbacks of one product do not overlap (rollback takes no build lock), staging has no `.rollback` entry of its own before publish (`AliasSnapshots.StagedHasNoHistory`), and timestamps increase, as the formatted local time does except when clocks are set back.
- Rollback.Rollback: the empty snapshot name, which the HTTP handler refuses before the call.
- FileSystem.Disk.Rename: a directory that is reached through a symbolic link counts as a link, not as a directory.
- ProofOfWork.SolveChallenge: rounding of doubles is any function that keeps the order; base64 and JSON of the answer are left out.
- ProofOfWork.Sha256Text: TextEncoder is any function of at most three bytes for each UTF-16 unit.
- RateLimiter.Limiter.Check: seconds are rounded up without floating point.
- Challenge.Service.Verify: the altcha check is any predicate that holds for a payload only during five minutes.
- BuildService.BuildRepo.UpdateStatus: of a row only the product and the status are kept; counts, messages and times are left out, and rows are not deleted with their product.
- BuildProtocol.NextInv: the pending row is checked and inserted in separate steps, but each SQL statement is one step.
- Pipeline.Run: StageSign and StageVerify only succeed or fail; what build and sign leave in staging is any tree.
- ConcurrentRuns.PipelinesTogether: each file operation is one step; that the steps of a pipeline alone do what Run does is a hypothesis on them.
- Links.ReaderOf: links that leave the tree read as an arbitrary function says; permissions are not modelled.
- StageBuild.StageBuild: an architecture is a plain name; downloads, nfpm, createrepo and templates only succeed or fail; custom product lines are empty, as in the code.
- LogStream.BuildLog: the client leaving ends the given stream early.
- LogWriter.Writer.Write: Go channels are entries of a table in the writer, and a broadcast is one step because it runs under the lock.
- Notifications, HTTP routing, authentication tokens, GPG, nfpm configuration, `.repo` templates and all other user interface: string plumbing or outside calls.
