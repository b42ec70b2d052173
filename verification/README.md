# Verified model of the apb command line

apb runs playbooks: graphs of agent tasks, checked, approved and then driven by
a detached process. This project models the parts of its command line where a
mistake costs data or runs something nobody approved: the eval runner with its
scratch directories, the hand-over of a supervised start, the optimistic edits,
and a few text formats that two processes or two releases have to agree on.

Each module follows one part of the program. Code that changes state step by
step is a class or a method with loops; a protocol between processes is a step
relation with an invariant kept by every step; a format is a pair of functions
with a theorem that connects them.

| file | what it models |
|---|---|
| ScratchLifecycle.dfy | owners, drivers, the scratch guard and the sweep, interleaved step by step |
| RunRecords.dfy | store, keep or stay: where each run directory ends up |
| MoveRunDir.dfy | the move of a run directory on inodes, against interference |
| LayerCheck.dfy | the walk over a fixture layer and the check of its links |
| LinkResolution.dfy | where the links of an accepted layer lead in the file system |
| GitSearch.dfy | the search for a `.git`, with the listing order as a parameter |
| Materialize.dfy | the no-follow copier and the construction of a scratch tree |
| IgnoreFile.dfy | the ignore file of a project, completed in place |
| EvalLoop.dfy | the budgeted loop over cases and repetitions, and its exit code |
| Follow.dfy | waiting on a run with limits, on a virtual clock |
| KillLeftover.dfy | scratch names, the environment test, and the two killing passes |
| SupervisedStart.dfy | parent, child, handoff file and handshake |
| ProfileEdit.dfy | concurrent editing sessions over a two-file profile |
| ScenarioPinning.dfy | the digests a scenario's child must find again, and the exit code |
| CandidatePointer.dfy | check and remove of the pointer, with and without the lock |
| NotifyFlags.dfy | a notify request as flags and back |
| SecretsTemplate.dfy | the template lines added to a secrets file |
| ReleaseChoice.dfy | version precedence and the release that is offered |
| SizeParser.dfy | sizes with checked 64-bit arithmetic |
| Text.dfy, Numerals.dfy, Options.dfy | trimming, splitting, joining and lines as Rust does them; decimal numerals; a value that may be missing |

## Where the code meets its promise only under a condition

Each of these is stated in the model with the exact condition, and most with a
family of inputs that breaks the promise.

- The sweep takes a failed read of `owner.pid` for "no owner" and a failed listing of
  the scratch directory or of a run's directory for "no live driver", and it looks at
  `owner.pid` and at the directory's age in two steps. No tree is deleted under a live
  driver if and only if none of these three reads fails and the time to complete
  `owner.pid` and the time between the two looks stay below 600 s together
  (`SafeIffReadsWorkAndDelaysFit`). Each of the four ways to break it has a lemma with
  the interleaving.
- A supervised start that ends in the timeout message may still lead to a run: a
  child that took the handoff in time goes on. A failure message is final if and only
  if it is not that one (`FailureLineIsFinalIffNoTimeout`).
- The handoff does not outlive the parent's return if and only if no write fails after it
  created the file and no removal of it fails (`HandoffIsGoneIffNoFault`): a failed write
  returns before the guard that removes it exists, and the guard ignores a failure.
- A link of an accepted fixture stays inside the tree when its target exists. A dangling
  one is judged by its text, and accepted links stay inside if and only if no dangling
  target walks through another link (`AcceptedMeansInsideIff`): `d/up -> ..` and
  `d/out -> up/../name` are accepted, and `d/out` leads next to the tree
  (`AcceptedLinkLeaves`).
- The last look at a stored run is taken after the move. When it fails the run is in the
  store and the result names another place (`FailedLookMisnamesTheRun`).
- A repetition that had to be kept in place is kept by a flag of its owner. Sweeps can
  remove it exactly when the owner is gone and no driver in its scratch directory lives
  (`KeptInPlaceIsSweptIff`).
- On one file system a stored run is never overwritten. Across devices the copy
  fallback loses a text of an earlier run exactly when a copied file meets one of the
  same name with another text, which takes colliding run ids
  (`MoveKeepsTextsUnlessItMeetsOne`, `CollidingRunIdOverwrites`).
- Across devices a copy that stops half-way, or an original that cannot be removed,
  leaves the run in two places: a part in the store, and the rest, kept or in scratch,
  where the result says. The run is in one place exactly as
  `FinishedInOnePlace` says, and an invocation conserves its runs throughout exactly as
  `ConservedThroughoutIff` says.
- A panic with a run in flight loses that run's record when its driver is gone
  and no earlier repetition had set the keep flag (`DropGuardWithLiveRun`).
- The publish of a profile edit takes a SOUL.md it cannot read for an empty one, which
  the editor's own read refuses to do. Every save replaces the pair its editor opened
  if and only if that read does not fail (`NothingIsLostIffSoulReads`); a single save
  does whenever the text was read or the opened one was not empty (`NoLostUpdate`).
- The digest of a profile joins the two files with a NUL, so a profile whose yaml
  holds a NUL shares its digest with another pair (`NulHidesThePair`). A stored
  yaml that parses holds none, which is what makes the swap exact
  (`DigestNamesThePair`); it tells a pair from all parsing ones if and only if the yaml
  holds no NUL (`DigestTellsPairsIffNoNul`).
- A profile is in place, or just between the two renames of a publish, unless a publish
  was killed there or could not put the old directory back (`InPlaceUnlessLost`).
- A clear of the candidate pointer says "removed" exactly when the pointer named its
  version, if and only if the read of the pointer does not fail
  (`TruthfulIffPointerReads`).
- An ignore file that does not read is replaced by the entries alone
  (`UnreadIgnoreFileIsReplaced`); one that reads is kept and completed
  (`IgnoreFileIsComplete`).
- `carries_git` answers "none" at the first directory that does not read. Its answer is
  right for every listing order if and only if there is no `.git` at all, or every
  directory that does not read has a `.git` above it (`AnswerIsRightIff`). The change is
  refused all the same, because the copier fails on that directory (`ApplyChange`).
- A secrets file whose last line is unterminated and ends in a carriage return
  loses it from its last value when a line is added (`OldValuesKept`); a key
  followed by a space counts as present but is never resolved
  (`RequestedIsReadable`); a file that does not read as text is replaced
  (`WriteSecrets`).
- A tester of one release line does not see the next pre-release of that line when
  a pre-release of a later line is the newest of all
  (`PrereleaseInstallGetsTheBestUnlessHidden`).
- A signal seen after a scenario child ended and before the next one starts leaves
  the rest out of the reports, and the exit code is that of the reports alone
  (`ScenarioCmd`).

## Assumptions

- The liveness probe is sound, its own reads of the driver's files included; a driver
  that exited stays dead; a failed start leaves no driver; a dead owner has no start in
  flight. A panic does not fall between the start and `set_live(Some)`, nor between
  `set_live(None)` and the keep or the move.
- A rename onto an existing directory with files in it fails, and nothing swaps a run
  directory while `RunRecords` accounts for it. A run that started has a journal.
- A directory lists all of its entries or does not read at all.
- The engine's preparation refuses a tree other than the one the gate pinned; a
  run id is not empty and does not start with `ERR: `.
- Digests are injective on the bytes they are given.
- A consent nonce has no white space around it.
- A path resolves as POSIX says, through at most 40 links; what does not exist yet on a
  dangling path is taken for directories to come.
- The scratch directory is its own canonical form or lies apart from it, so a
  repetition can be named in at most two ways.
- Every secret name came through `parse_env_ref`; the installed version is the
  running one; the installer's newest release is the highest by precedence, and its
  query for stable releases answers.
- Outcomes the code cannot choose (I/O errors, answers at a terminal, signals,
  the launch policy, what a repetition reports) are inputs.

## Model

| member | source | states |
|---|---|---|
| `ScratchLifecycle.SafeIffReadsWorkAndDelaysFit` | crates/apb-cli/src/eval.rs:1204-1257 | over every interleaving of any number of invocations and sweeps, with crashes: no tree is deleted under a live driver if and only if no read of a sweep fails and the two delays fit the 600 s window together |
| `ScratchLifecycle.RunKeepsTheInvariant` | crates/apb-cli/src/eval.rs:946-1257 | when reads and delays fit, every reachable state keeps: nothing removed alive; a live driver left in scratch is in hand or covered by the keep flag; a sweep past its owner check faces an owner that is over |
| `ScratchLifecycle.OwnerStepKeepsTheInvariant` | crates/apb-cli/src/eval.rs:1322-1487 | each step of build, start, follow, store, keep, guard drop and crash keeps the invariant, and what concurrent sweeps already know stays true |
| `ScratchLifecycle.SweepStepKeepsTheInvariant` | crates/apb-cli/src/eval.rs:1208-1257 | each read, probe, listing, decision and removal of such a sweep keeps it for every invocation |
| `ScratchLifecycle.SweepPassesOnlyAFinishedOwner` | crates/apb-cli/src/eval.rs:1208-1236 | such a sweep goes on past the owner, by probe or by age, only when the owner is gone or already removes its own scratch directory |
| `ScratchLifecycle.LongDelaysDeleteUnderALiveDriver` | crates/apb-cli/src/eval.rs:1218-1236 | for all longer delays, a reachable state in which a live driver's tree was deleted |
| `ScratchLifecycle.UnreadOwnerDeletesUnderALiveDriver` | crates/apb-cli/src/eval.rs:1218-1236 | the same when `owner.pid` may not read, whatever the delays |
| `ScratchLifecycle.UnlistedScratchDeletesUnderALiveDriver` | crates/apb-cli/src/eval.rs:1237-1256 | the same when the scratch directory may not list |
| `ScratchLifecycle.UnlistedRunsDeleteUnderALiveDriver` | crates/apb-cli/src/eval.rs:1241-1256 | the same when a run's directory may not list |
| `ScratchLifecycle.KeptInPlaceIsSweptIff` | crates/apb-cli/src/eval.rs:1421-1424 | in every reachable state, sweeps can remove a repetition kept in place exactly when its owner is gone and no driver beside it lives |
| `ScratchLifecycle.KeptInPlaceIsSweptLater` | crates/apb-cli/src/eval.rs:1421-1424 | a reachable state with such a repetition, and one in which it is gone |
| `ScratchLifecycle.PlaceTellsTheRun` | crates/apb-cli/src/eval.rs:946-1257 | over every run, a repetition is in the kept place exactly when a rename of its owner or its guard worked while it was in scratch, and removed exactly when a failed build or start, the removal after storing, the guard or a sweep removed it there; an invocation's keep flag is set exactly when a keep of it failed |
| `ScratchLifecycle.KeptStaysKept` | crates/apb-cli/src/eval.rs:946-959 | a rename that works takes the repetition out of scratch in every continuation and leaves the flag as it was |
| `ScratchLifecycle.RemovedOnlyAfterStoring` | crates/apb-cli/src/eval.rs:1416-1472 | an owner removes a finished tree only after the run directory was moved out of it, which comes after its driver was seen to be gone |
| `ScratchLifecycle.KeptOnlyWhenNeeded` | crates/apb-cli/src/eval.rs:1173-1202 | a repetition is kept only when its driver would not exit or its run could not be stored |
| `ScratchLifecycle.CleanEnd` | crates/apb-cli/src/eval.rs:1416-1472 | a course through start, follow, store, removal and the guard that leaves no tree and no owner file |
| `ScratchLifecycle.PanicKeepsTheLiveRun` | crates/apb-cli/src/eval.rs:1173-1202 | a course in which the guard of a panicking owner keeps the repetition of a live run |
| `RunRecords.ConservedThroughoutIff` | crates/apb-cli/src/eval.rs:1416-1486 | after every repetition each started run is in one place, the recorded one, in scratch only with the keep flag, with all earlier runs untouched, if and only if everything stored is whole, seen to be there by the last look, and across devices meets no stored run |
| `RunRecords.FailedLookMisnamesTheRun` | crates/apb-cli/src/eval.rs:836-843 | for every run that is renamed and whose last look fails: it is in the store, and the result names a place that does not hold it |
| `RunRecords.EvalHome.RunInvocation` | crates/apb-cli/src/eval.rs:1416-1486 | the loop with the guard's drop has exactly that course, on one device or two, and ends conserved under that condition |
| `RunRecords.FinishedInOnePlace` | crates/apb-cli/src/eval.rs:1416-1472 | on one device or two: the run is in the recorded place only, exactly when nothing of it was stored, or all of it was, seen to be there, over no other file of an earlier run of that id |
| `RunRecords.EvalHome.FinishRepetition` | crates/apb-cli/src/eval.rs:1416-1472 | stored, else kept, else left in place with the flag: the exact directories and place |
| `RunRecords.MoveKeepsTextsUnlessItMeetsOne` | crates/apb-cli/src/eval.rs:804-843 | a move loses a text of an earlier stored run exactly when it copies, across devices, a file over one with another text |
| `RunRecords.CollidingRunIdOverwrites` | crates/apb-cli/src/eval.rs:931-940 | for every two runs of one id, a copy that replaces the first one's journal |
| `RunRecords.EvalHome.MoveRunDir` | crates/apb-cli/src/eval.rs:804-843 | the exact directories and answer after the rename, after the copy fallback file by file, and after the last look |
| `RunRecords.EvalHome.KeepRepetition` | crates/apb-cli/src/eval.rs:946-966 | moves the repetition's directory, with the run if it is still in it, to the kept place, or sets the sticky flag |
| `RunRecords.EvalHome.DropGuardWithLiveRun` | crates/apb-cli/src/eval.rs:1173-1202 | after a panic the record of the run in flight survives exactly when its driver would not exit or the flag was set |
| `RunRecords.MoveKeepsPlaces` | crates/apb-cli/src/eval.rs:931-966 | a move keeps every other run's only place and the moved run in one place |
| `MoveRunDir.Kernel.Move` | crates/apb-cli/src/eval.rs:804-843 | under arbitrary interference apb at most makes the directories of the store and then renames one entry of a directory reached, the tree itself included, through real directories only; moved means a real directory arrived; without interference a plain run does move, and a path with a link in it is refused with nothing changed |
| `MoveRunDir.Kernel.OpenParent` | crates/apb-cli/src/eval.rs:886-927 | every opened directory was a real entry of the one before it |
| `MoveRunDir.Kernel.EnsureNoSymlinkBelow` | crates/apb-core/src/fsutil.rs:144-176 | with nothing interfering, lets exactly the paths through that meet no link and no file before their end |
| `MoveRunDir.OutsideIsUntouched` | crates/apb-cli/src/eval.rs:886-927 | every path that does not pass the renamed entry reaches what it reached, unchanged |
| `LayerCheck.CheckLayer` | crates/apb-cli/src/eval.rs:395-429 | the explicit-stack walk ends on every finite tree and accepts exactly the layers whose directories read and whose entries are all fit |
| `LayerCheck.AcceptedFixtureIsClean` | crates/apb-cli/src/eval.rs:395-429 | the entries of a fixture are all fit exactly when nothing in it is named `.git`, nothing in `.apb` is a link, and every link is relative with a target inside, or a dangling one whose text stays inside |
| `LinkResolution.AcceptedMeansInsideIff` | crates/apb-cli/src/eval.rs:332-370 | over all file systems and layers: the links of an accepted layer land inside it if and only if no dangling target walks through a link |
| `LinkResolution.AcceptedLinkLandsInside` | crates/apb-cli/src/eval.rs:332-370 | an accepted link lands inside when its target exists or does not walk through another link |
| `LinkResolution.AcceptedLinkLeaves` | crates/apb-cli/src/eval.rs:332-370 | for all names and every place of the tree, an accepted fixture with a link that leads next to the tree |
| `LinkResolution.CanonicalLands` | crates/apb-cli/src/eval.rs:332-370 | a path that exists lands where its canonical form says |
| `LinkResolution.PlainPathIsLexical` | crates/apb-cli/src/eval.rs:332-370 | a path without links exists exactly when its text passes directories only, and then where its text leads |
| `LinkResolution.MeetsLinkIff` | crates/apb-cli/src/eval.rs:332-370 | a path walks through a link exactly when a beginning of its text ends at one |
| `LayerCheck.WalkAdvances` | crates/apb-cli/src/eval.rs:395-429 | one directory further keeps what the walk knows and lowers its measure |
| `LayerCheck.DepthStaysInside` | crates/apb-cli/src/eval.rs:332-370 | the depth counter accepts exactly when resolving the target on a stack of names never leaves the root |
| `LayerCheck.EntryAccepted` | crates/apb-cli/src/eval.rs:395-429 | one entry is fit exactly when it is no `.git` and no link in `.apb` of a fixture, and a link is relative with a canonical target inside, or a dangling one whose text stays inside |
| `GitSearch.AnswerIsRightIff` | crates/apb-cli/src/eval.rs:375-390 | the answer is right for every listing order if and only if there is no `.git`, or every directory that does not read has a `.git` above it |
| `GitSearch.CarriesGit` | crates/apb-cli/src/eval.rs:375-390 | the loop with its stack gives the answer of the search in that order |
| `GitSearch.StraightToGoal` | crates/apb-cli/src/eval.rs:375-390 | an order that leads the search past every `.git` to an unreadable directory without one above it |
| `GitSearch.GuardedSearchFinds` | crates/apb-cli/src/eval.rs:375-390 | with every unreadable directory below a `.git`, "none" means that there is none |
| `GitSearch.NoGitInSightIsNoGit` | crates/apb-cli/src/eval.rs:375-390 | a `.git` inside another one is never the only one |
| `Materialize.Scratch.Run` | crates/apb-cli/src/eval.rs:436-556 | succeeds exactly when git and tar do and each stage fits; then `.apb` is entry by entry the project's own, `.git` is what apb's last git commands left, and the rest is the change over the fixture over the archive |
| `Materialize.Scratch.CopyDir` | crates/apb-core/src/fsutil.rs:290-367 | the no-follow copy succeeds exactly when no entry changes its kind, no link meets anything, all is readable; then every path has what the source has |
| `Materialize.Scratch.CopyDefinitions` | crates/apb-cli/src/eval.rs:284-327 | the definitions replace what was there and nothing outside `.apb` changes; in a tree without `.apb` it succeeds exactly when the definitions fit |
| `Materialize.Scratch.BuildFixture` | crates/apb-cli/src/eval.rs:436-492 | succeeds exactly when the layers fit; no `.apb` of theirs is left |
| `Materialize.Scratch.ApplyChange` | crates/apb-cli/src/eval.rs:525-553 | accepted exactly when it carries no `.git` and no `.apb`, copies, and passes; apb's own directories untouched |
| `Materialize.Scratch.InitProject` | crates/apb-core/src/registry.rs:12-23 | makes what is missing and changes nothing else but the ignore file, which gets its missing entries if that write works |
| `Materialize.IgnoreFileIsComplete` | crates/apb-core/src/workspace.rs:160-194 | a write that works leaves the old text in front, and what was ignored before together with every entry |
| `Materialize.UnreadIgnoreFileIsReplaced` | crates/apb-core/src/workspace.rs:169-193 | an ignore file that does not read is replaced by the entries alone |
| `IgnoreFile.EnsureLocalIgnored` | crates/apb-core/src/workspace.rs:160-194 | nothing is written exactly when every entry is ignored, in whatever spelling; otherwise the completed text |
| `IgnoreFile.KeepsAndCompletes` | crates/apb-core/src/workspace.rs:154-194 | the old text stays in front, exactly the entries are added to what is ignored, a second call changes nothing |
| `IgnoreFile.OtherSpellings` | crates/apb-core/src/workspace.rs:154-176 | an anchored or slash-less spelling counts as the entry |
| `Materialize.OnlyTheProject` | crates/apb-cli/src/eval.rs:284-327 | what is under `.apb` in the end depends on the project alone |
| `Materialize.PutsAddUp` | crates/apb-core/src/fsutil.rs:300-367 | copies of parts add up to the copy of the whole |
| `EvalLoop.RunEval` | crates/apb-cli/src/eval.rs:1993-2118 | executes the plan up to the first slot blocked by a signal or the budget, totals summed over it, `incomplete` unset just when all of it ran; exit 0 exactly when a non-empty plan ran and passed without a signal |
| `EvalLoop.RunCases` | crates/apb-cli/src/eval.rs:1993-2053 | the nested loop does this across cases |
| `EvalLoop.RunCase` | crates/apb-cli/src/eval.rs:1993-2048 | the repetitions of one case continue the plan where it stood, or nothing once stopped |
| `EvalLoop.PassesEqualsOf` | crates/apb-cli/src/eval.rs:2087-2118 | equal counts mean that every repetition passed |
| `Follow.Follow` | crates/apb-cli/src/eval.rs:696-757 | ends within timeout and grace after at most ceil(timeout/POLL)+1 waits, reading all the while; no poll begins with the signal flag up, and a flag that stays up ends it within one poll, or its last grace; no stop reason exactly when a reading was finished, and any other reason is true of the run then; a crossed limit gives a limit stop or a finished run; one stop call exactly when not finished; settled runs are noticed in bounded time |
| `Follow.Wait` | crates/apb-engine/src/run_wait.rs:268-305 | answers by the reading at its end, finished exactly if a reading was; a gate only after the whole grace; a run that settled is answered soon after |
| `Follow.OverLimit` | crates/apb-cli/src/eval.rs:670-687 | a token limit below the largest is reported exactly when crossed, saturation included, and the cost limit exactly for a higher cost |
| `Follow.Poll` | crates/apb-cli/src/eval.rs:720-752 | one turn of the loop: a poll, and the last grace when it runs out over a limit |
| `Follow.ReadUsage` | crates/apb-cli/src/eval.rs:736-744 | a crossed limit gives the run its last grace and then stops it unless it finished |
| `KillLeftover.KillLeftoverGroup` | crates/apb-cli/src/eval.rs:1020-1053 | the signals sent are exactly those the two readings of the process table call for |
| `KillLeftover.ExactlyTheseGetASignal` | crates/apb-cli/src/eval.rs:1020-1126 | a direct signal goes exactly to the processes whose variables name the run and a run directory in the repetition, and to the members of the driver's group that work inside it; a group signal exactly to the groups such a process of the run leads; each only where it may be sent |
| `KillLeftover.SignalsAreContained` | crates/apb-cli/src/eval.rs:1103-1126 | never process 0 or 1, this process or its group; a group only when a marked process leads it |
| `KillLeftover.OtherRepetitionsGetNoSignal` | crates/apb-cli/src/eval.rs:1020-1081 | no direct or group signal names a process of another repetition, whatever the run ids |
| `KillLeftover.RepetitionsOfOneInvocationAreApart` | crates/apb-cli/src/eval.rs:1328-1329 | different case or number means directories apart, as written and resolved |
| `KillLeftover.RepetitionsOfTwoInvocationsAreApart` | crates/apb-cli/src/eval.rs:1328-1329 | so do different scratch directories, for the same case and number too |
| `KillLeftover.NameTellsBoth` | crates/apb-cli/src/eval.rs:1328 | `<case>-<n>` gives case and number back |
| `KillLeftover.NameIsNotReserved` | crates/apb-cli/src/eval.rs:1328 | and never names the suite copy, the hooks, the owner file or the overrides |
| `KillLeftover.ValueIsLookup` | crates/apb-cli/src/eval.rs:1062-1081 | reading a variable from the NUL-separated block is looking it up in the environment |
| `SupervisedStart.ChildRunsOnlyWhatWasConsentedTo` | crates/apb-cli/src/run.rs:1224-1331 | in every interleaving, an irreversible run was prepared only under the nonce the parent's consent was given for, never from a run step |
| `SupervisedStart.HandoffIsGoneIffNoFault` | crates/apb-engine/src/launch_handoff.rs:70-99 | over every interleaving the handoff is gone when the parent returned, if and only if no write fails after it created the file and no removal fails |
| `SupervisedStart.HandoffIsTakenOnceAndGone` | crates/apb-engine/src/launch_handoff.rs:96-190 | taken at most once, faults or not; one that outlives the return was left by such a fault |
| `SupervisedStart.FailedWriteLeavesTheHandoff` | crates/apb-engine/src/launch_handoff.rs:89-94 | for every tree, a handoff left by a write that failed after the creation |
| `SupervisedStart.FailedRemovalLeavesTheHandoff` | crates/apb-engine/src/launch_handoff.rs:96-99 | for every tree, one left by a failed removal |
| `SupervisedStart.LineIsHonest` | crates/apb-cli/src/run.rs:1176-1213 | a started line names a prepared run; a refusal or a reported failure means none, ever |
| `SupervisedStart.FailureLineIsFinalIffNoTimeout` | crates/apb-cli/src/run.rs:1176-1213 | a failure line guarantees that no run was or will be prepared if and only if it is not the timeout line |
| `SupervisedStart.TimeoutLineMayHideARun` | crates/apb-cli/src/run.rs:1176-1213 | for every tree, a run prepared after the timeout line |
| `SupervisedStart.RunKeepsTheInvariant` | crates/apb-cli/src/run.rs:857-952 | the invariant over every run of parent, child, edits and strangers |
| `SupervisedStart.GrantedIffConsented` | crates/apb-cli/src/consent.rs:43-81 | a consent is granted exactly when somebody gave it for this tree outside a run step: a flag that is bare, `true` or the tree's nonce, a typed yes where no flag was given, or a forwarded consent of that nonce; and it names who |
| `SupervisedStart.PassesIffConsented` | crates/apb-cli/src/run.rs:43-127 | a tree passes exactly when the launch policy lets it and, if it is irreversible, somebody consented to it |
| `SupervisedStart.GrantWasGiven` | crates/apb-cli/src/run.rs:857-952 | over every run the parent holds a consent exactly when its gate met somebody who gave it, for the tree it saw at that moment |
| `SupervisedStart.EveryRunWasConsentedTo` | crates/apb-cli/src/run.rs:1224-1331 | behind every irreversible run that was prepared stands a flag or a typed yes at the parent's gate, for its nonce |
| `SupervisedStart.TakesExactlyItsParentsFreshHandoff` | crates/apb-engine/src/launch_handoff.rs:136-187 | a handoff is accepted exactly when its writer was still the child's parent and it was written to its end at most 60 s before; then the child holds what the parent obtained |
| `SupervisedStart.TimesOutOnlyAfterTheWait` | crates/apb-cli/src/run.rs:1193-1210 | the parent gives up only more than 10 s after it spawned the child |
| `SupervisedStart.EditedTreeIsRefused` | crates/apb-cli/src/run.rs:1224-1331 | for every tree and every edit that changes the nonce, a course in which the child refuses and the parent reports it |
| `SupervisedStart.StolenHandoffIsNoConsent` | crates/apb-engine/src/launch_handoff.rs:136-187 | for every irreversible tree, a course in which a stranger takes the handoff and the child refuses |
| `SupervisedStart.OrphanedHandoffIsNoConsent` | crates/apb-engine/src/launch_handoff.rs:183-185 | for every tree, a course in which a child whose parent was killed takes no consent |
| `SupervisedStart.StartIsReported` | crates/apb-cli/src/run.rs:1193-1205 | for every tree, a course in which the start is reported with its run |
| `SupervisedStart.FailureIsReported` | crates/apb-cli/src/run.rs:1195-1204 | for every message of the child, a course in which the parent reports a failure |
| `ProfileEdit.NothingIsLostIffSoulReads` | crates/apb-mcp/src/profile_tools.rs:284-320 | over every interleaving, each save replaces the pair its editor opened if and only if the locked read of SOUL.md does not fail |
| `ProfileEdit.NoLostUpdate` | crates/apb-cli/src/profile.rs:299-407 | each save replaced what the save before published, with the yaml its editor opened, and with the opened SOUL text exactly when that was read or there was none to lose |
| `ProfileEdit.UnreadSoulIsOverwritten` | crates/apb-mcp/src/profile_tools.rs:300-306 | for every profile, an interleaving in which a new SOUL text is overwritten unread |
| `ProfileEdit.EditsOutliveEveryFailure` | crates/apb-cli/src/profile.rs:299-407 | after the editor's success, staged edits go only after a publish succeeded |
| `ProfileEdit.AcceptsExactlyTheOpenedPair` | crates/apb-mcp/src/profile_tools.rs:300-320 | in every reachable state the comparison lets exactly the opened pair through, as far as SOUL.md reads: an unchanged profile is accepted |
| `ProfileEdit.InPlaceUnlessLost` | crates/apb-mcp/src/profile_tools.rs:284-371 | over every run the profile is in place and is what the last save published, unless a publish is between its renames, was killed there, or failed to roll back |
| `ProfileEdit.StagedTellsTheRun` | crates/apb-cli/src/profile.rs:299-407 | over every run the edits of a session are staged exactly when they once were, its editor did not fail and its publish did not work to the end |
| `ProfileEdit.SessionTellsTheRun` | crates/apb-cli/src/profile.rs:299-407 | what a session compares with is what it read, and one that published had its editor succeed and its edits pass the checks |
| `ProfileEdit.UndisturbedEditIsPublished` | crates/apb-cli/src/profile.rs:299-407 | for every profile that parses and all new texts, the course of an edit that is published and leaves nothing staged |
| `ProfileEdit.LostBetweenTheRenames` | crates/apb-mcp/src/profile_tools.rs:284-371 | for every profile, a kill or a failed roll-back that leaves none |
| `ProfileEdit.RunKeepsTheInvariant` | crates/apb-mcp/src/profile_tools.rs:284-371 | sessions, lock and saves in every reachable state |
| `ProfileEdit.DigestNamesThePair` | crates/apb-core/src/profile.rs:485-500 | equal digests name equal pairs exactly when the other yaml holds no NUL |
| `ProfileEdit.NulHidesThePair` | crates/apb-core/src/profile.rs:485-500 | every pair whose yaml holds a NUL shares its digest with one whose yaml holds none |
| `ProfileEdit.DigestTellsPairsIffNoNul` | crates/apb-core/src/profile.rs:485-500 | the digest tells a pair from all pairs that parse if and only if its yaml holds no NUL |
| `ScenarioPinning.ScenarioCmd` | crates/apb-cli/src/scenario.rs:166-259 | refused exactly when something to be played does not fit; otherwise the stale ones and a beginning of the rest are reported, all of it without an early signal; exit 0 exactly when nothing was stale and all played passed |
| `ScenarioPinning.PartsAreAll` | crates/apb-cli/src/scenario.rs:195-206 | every selected scenario is either stale or played, once |
| `ScenarioPinning.PartStandsAt` | crates/apb-cli/src/scenario.rs:195-206 | those played, and those left out, keep the order of the selection; left out are exactly the stale ones when stale ones were not asked for |
| `ScenarioPinning.Partition` | crates/apb-cli/src/scenario.rs:195-206 | the loop makes these two parts |
| `ScenarioPinning.PlayAll` | crates/apb-cli/src/scenario.rs:241-255 | children in order, cut short exactly by a signal before the last |
| `ScenarioPinning.PlaysWhatWasCheckedIffPinned` | crates/apb-cli/src/scenario.rs:445-471 | over every interleaving of edits with the two reads of parent and child: a request is for what the parent checked if and only if the digests are compared |
| `ScenarioPinning.PlaysIffUnchanged` | crates/apb-cli/src/scenario.rs:445-471 | the child plays exactly when it reads again what the parent checked |
| `ScenarioPinning.EditedInBetween` | crates/apb-cli/src/scenario.rs:445-471 | for all contents, an edit that would be played without the comparison |
| `ScenarioPinning.ExitCode` | crates/apb-cli/src/scenario.rs:261-272 | unplayed over failed over passed |
| `CandidatePointer.SafeIffLocked` | crates/apb-core/src/candidate_pointer.rs:29-41 | over every interleaving, removals hit only the named version and say so, if and only if callers keep to the lock |
| `CandidatePointer.NewerPointerSurvives` | crates/apb-core/src/candidate_pointer.rs:29-41 | a pointer survives every clear of other versions |
| `CandidatePointer.LockKeepsTheInvariant` | crates/apb-core/src/candidate_pointer.rs:14-41 | between check and removal the holder's pointer stands |
| `CandidatePointer.UnlockedClearRemovesTheNewPointer` | crates/apb-core/src/candidate_pointer.rs:29-41 | for every two versions, an interleaving without the lock that removes the newer |
| `CandidatePointer.TruthfulIffPointerReads` | crates/apb-core/src/candidate_pointer.rs:24-41 | over every run under the lock, a clear answers "removed" exactly when the pointer named its version, if and only if the read of the pointer does not fail |
| `CandidatePointer.UnreadPointerIsKept` | crates/apb-core/src/candidate_pointer.rs:24-32 | for every version, a run in which a pointer that names it is kept because it does not read |
| `CandidatePointer.FailedRemovalIsTriedAgain` | crates/apb-core/src/candidate_pointer.rs:29-41 | for every version, a course in which the removal fails, leaves the pointer, and works on the next try |
| `NotifyFlags.RequestSurvivesTheFlags` | crates/apb-cli/src/notify.rs:49-101 | a request comes back from its flags exactly when it is valid, whatever the machine's settings, readable or not |
| `NotifyFlags.ViaReadsBack` | crates/apb-cli/src/notify.rs:199-213 | trimmed names with a connector free of `/` and `:` and an account free of `:` come back from `--notify-via` |
| `NotifyFlags.ParseJoined` | crates/apb-cli/src/notify.rs:72-101 | joined with `=`, any value is read whole, a leading dash included |
| `NotifyFlags.SpacedIsJoined` | crates/apb-cli/src/notify.rs:40-43 | a recipient may also follow a space |
| `NotifyFlags.ListReadsBack` | crates/apb-cli/src/notify.rs:105-137 | a printed list of names is read back as it was |
| `NotifyFlags.TargetOf` | crates/apb-cli/src/notify.rs:142-184 | a part left out comes only from a base of the same account |
| `NotifyFlags.RequestOf` | crates/apb-cli/src/notify.rs:49-70 | only a valid request comes out |
| `NotifyFlags.ValidMeans` | crates/apb-core/src/notify/mod.rs:283-465 | a request is valid exactly when it is off, or its names, its recipient and its lists are as they may be; a recipient that looks like a credential is refused |
| `NotifyFlags.PartsComeFromTheBase` | crates/apb-cli/src/notify.rs:139-184 | for every account: what each part left out yields, with a base of that account and without |
| `NotifyFlags.SettingsAreReadForAPart` | crates/apb-cli/src/notify.rs:186-197 | settings that do not read stop exactly the requests that name a target in part |
| `NotifyFlags.AnyFlagAsks` | crates/apb-cli/src/notify.rs:49-70 | no request is made exactly when no flag is given |
| `NotifyFlags.DashIsNoValue` | crates/apb-cli/src/notify.rs:20-43 | after a space a value may begin with a dash only for the recipient, or when it is nothing else |
| `NotifyFlags.NamesOfAre` | crates/apb-cli/src/notify.rs:105-111 | empty names are dropped, all others are trimmed |
| `SecretsTemplate.WriteKeepsAndCompletes` | crates/apb-cli/src/connector.rs:1005-1037 | the old text stays in front, all requested names are present, a second write changes nothing |
| `SecretsTemplate.OldValuesKept` | crates/apb-cli/src/connector.rs:1021-1037 | old values read as before exactly unless a bare carriage return ends the last assignment |
| `SecretsTemplate.RequestedIsReadable` | crates/apb-core/src/connector/secrets.rs:63-86 | a requested name resolves afterwards exactly when it did before or was not taken as present |
| `SecretsTemplate.WriteSecrets` | crates/apb-cli/src/connector.rs:984-1037 | names added once, only the missing ones; a file that is no text is replaced |
| `SecretsTemplate.WriteTemplate` | crates/apb-cli/src/connector.rs:1005-1037 | the string built in place is the old text, ended, and one line a missing name |
| `SecretsTemplate.Dedup` | crates/apb-cli/src/connector.rs:984-988 | each name once, in the order of its first place |
| `TextLines.LinesOfBoth` | crates/apb-core/src/connector/secrets.rs:63-86 | text after a terminated line adds its lines and changes none |
| `SecretsTemplate.SpacedKeyIsNeverFilledIn` | crates/apb-cli/src/connector.rs:1011-1021 | for every name, a file in which it counts as present and never resolves |
| `SecretsTemplate.BareCrIsLost` | crates/apb-cli/src/connector.rs:1024-1032 | for every two names, a file whose value changes |
| `SecretsTemplate.AssignmentIs` | crates/apb-core/src/connector/secrets.rs:63-86 | a line assigns exactly when it has a `=` and is no comment, and its key ends at the first one |
| `SecretsTemplate.DotenvIsLastAssigned` | crates/apb-core/src/connector/secrets.rs:63-86 | the resolver reads for each key the value of its last assignment |
| `SecretsTemplate.PresentIsAssigned` | crates/apb-cli/src/connector.rs:1008-1021 | the writer takes a name as present exactly when a line assigns to it, white space aside |
| `SemVer.PrecedenceIsATotalOrder` | crates/apb-cli/src/selfupdate.rs:245-250 | precedence of section 11 of Semantic Versioning 2.0.0 is a total order |
| `SemVer.BelowByTheRules` | crates/apb-cli/src/selfupdate.rs:245-250 | and it is that of section 11, for all versions: major, minor, patch, a pre-release before its release, then the first difference of the identifiers |
| `ReleaseChoice.OfferFits` | crates/apb-cli/src/selfupdate.rs:212-250 | an offer is above the running version; stable installs get stable ones, pre-release installs no other line's pre-release |
| `ReleaseChoice.NewerStableIsNotMissed` | crates/apb-cli/src/selfupdate.rs:212-250 | a newer stable release always leads to an offer at least that new |
| `ReleaseChoice.StableInstallGetsTheBest` | crates/apb-cli/src/selfupdate.rs:212-218 | a stable install is offered the best there is |
| `ReleaseChoice.PrereleaseInstallGetsTheBestUnlessHidden` | crates/apb-cli/src/selfupdate.rs:200-250 | a pre-release install too, exactly unless its line is hidden behind a later line |
| `ReleaseChoice.NextBetaHidesBehindALaterLine` | crates/apb-cli/src/selfupdate.rs:200-250 | for every beta, a release set that hides the next one |
| `ReleaseChoice.OwnReleaseIsOffered` | crates/apb-cli/src/selfupdate.rs:241-250 | a tester whose own release is the only newer one is offered it |
| `SizeParser.ParseSizeIsExact` | crates/apb-cli/src/cache.rs:46-58 | a value is returned exactly for the strings of the grammar that denote it, up to 2^64-1 |
| `SizeParser.AccumulateIsExact` | crates/apb-cli/src/cache.rs:46-58 | checking each digit rejects exactly the numerals above 2^64-1 |
| `SizeParser.SizesAreRead` | crates/apb-cli/src/cache.rs:46-58 | every written size is read as its exact number of bytes, or not at all |
| `SizeParser.ReadIsASize` | crates/apb-cli/src/cache.rs:46-58 | whatever is read was a written size |
| `SizeParser.NumbersAndSuffixes` | crates/apb-cli/src/cache.rs:46-58 | k, m and g, in either case, stand for 2^10, 2^20 and 2^30; any other character after a number is refused |

## Left out

- The engine behind the calls (scheduler, journal, pause and release wakers, gate decisions, send ledger): contracts only.
- Printing, tables, terminal cleaning, redaction and JSON shaping.
- Command-line definitions and dispatch, apart from the notify flags; of those, the `--` separator and other commands' flags.
- The thin wrappers around other crates (candidate, grade, judge, problems, results, memory, decisions, evidence, stats, trash, server, setup and the like).
- Network, sockets, editors, real git and tar: steps or inputs.
- `with_prompt` and the launch policy: one input of the gate; the loop that asks a person again is not modelled.
- MoveRunDir.Kernel.Move: does not model the copy fallback across devices, because it works by path and best effort; what it does to the store is in `RunRecords.EvalHome.MoveRunDir`. The repetition's directory and the store's are taken as fixed, since their paths belong to apb.
- Links and sub-directories inside a run directory that is copied across devices: its files are a flat map.
- Materialize.Scratch.Run: the project's `.apb/playbooks/<id>`, profiles, skills and config are taken not to be links themselves, and disk errors other than unreadable directories do not occur.
- The type, mode, owner and place checks of a handoff file: the files that are taken are apb's own.
- Profile files edited by hand, past the lock every publish takes.
- The listing order of directories is arbitrary where it is not a parameter, and so is the order of signals within a pass.
- Token totals are unbounded in the loop's sum; costs are exact reals, and the rounding of the reported total to a millionth is left to printing.
- Keying and storing the result of an eval, the cost warning, and the comparison with earlier results.
- What a scenario's child plays after its request was built, and the timeout of a child: a verdict is an input.
- Build metadata of versions, which has no precedence.
- File permissions and the `.gitignore` line of a secrets file.
