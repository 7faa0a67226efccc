# Verification models for maops-docker-platform

These Dafny modules model the parts of the platform where correctness depends on more than one
function at a time, and prove what those parts are for:

* **The durable counter behind three services.** `CrashableDisk` is the data directory: files and
  directory snapshots of which some are on the platter and some are not. `CounterStore` and
  `StateStorage` are `StateStore` on that disk, one system call at a time, each of which may fail.
  `CounterChain` puts client, gateway, app and state around it as a state machine: any number of
  requests, interleaved handler threads, lost and late messages, hops that give up, process kills
  and power losses at any point. `CounterLog`, `ChainGuarantees` and `CounterOrder` say what holds
  over every run, `PossibleRuns` which runs there are, and `LostAcknowledgements` when a value can be
  answered twice.
* **Debian versions.** `VersionComponent` proves the two-index loop of `_verrevcmp` equal to a
  zero-padded lexicographic comparison of integer codes, and `VersionRanking` says what that is in
  the Policy's terms; the order laws of `DebianVersion` and the monotonicity of the decision in
  `PatchLifecycle` follow from it.
* **Verified container updates.** `MemoryStrings` reads Docker's memory limits, and `ContainerUpdate`
  runs the retry loop and the shrink-and-restore wrapper against a Docker that answers anything and
  a clock that passes on as it likes.
* **The timeout hierarchy.** `PlatformConfig` holds both loaders, `TimeoutBudget` the timed runs
  that the validated inequality is there for.
* **Line-based readers.** `WorkflowText`, `WorkflowRendering`, `WorkflowComments`, `TextSearch` and
  `WorkflowChecks` (workflow files and step order), `Dockerfile` (instructions and stages),
  `ReleaseBundle` with `ManifestText` and `NameOrder` (staging and `SHA256SUMS`).

`Text`, `Sequences` and `Wrappers` hold what the others share. `dafny verify dfyconfig.toml` checks everything.

## Assumptions

* One process writes the counter. A rename is atomic. A directory change is visible at once; a
  power loss brings back some directory snapshot taken since the last directory fsync, whole
  and never older than that fsync. A file changed since its last fsync holds anything after a
  power loss. Asking whether the counter file exists does not fail.
* A failing write, fsync or unlink may or may not have had its effect; a failing open or rename
  has had none.
* Docker, the action that the restore wrapper calls, and the clock are arbitrary, except that the
  clock is monotonic and a sleep takes at least its argument.
* Characters are classified as ASCII; times are real numbers.

## Findings

* The comment at `state/storage.py:114-118` and the module text at lines 13-18 say that the rename
  is durable. `_fsync_dir` swallows a failing open or fsync, so an acknowledged increment can be
  undone by a power loss and two clients can be answered 200 with the same value:
  `TwoAnswersCanBeEqual` builds such a run from every idle state, and `PowerLossRepetitionExactly` and
  `RepetitionExactly` state exactly when repetition can happen, before and after the power loss.
* A failing `close` after the directory fsync makes `increment` raise although the new value has
  been committed; the client then sees 500 at state and 503 at the gateway. `Increment` counts
  this as a failed call whose commit stands, and `CommitCanFail` builds such a run from every idle state.
* When HostConfig lacks `Memory` or `MemorySwap`, the wrapper raises before any restore update is
  attempted, and an exception of the action is then not chained (`RestoreGuarantee`).
* The wrapper's own text (`scripts/reliability/reliability_check.py:727-729`) says that a restore is always
  attempted. A shrink that took effect but did not verify ends the wrapper at line 772 without one:
  `ShrinkIsVerified` and `RestoreTrace` give the exact condition, an inspection that showed the smaller limits.
* The text of `_strip_comments` (`scripts/ci/check_workflows.py:203-207`) says that stripping comments has no effect
  on structural parsing. That is so for `_extract_block`, on all lines (`BlockOfStripped`). `job_block`, however,
  takes the indent of the first line below `jobs:` that is not blank, be it a comment: called on lines that
  still have their comments it can miss every job (`JobIsFoundExactly`). The checks never are in that
  case, because every file is stripped before they run: `StrippedStepsAreRecovered` needs no such condition.
* The manifest names its entries back exactly if no asset name contains a line separator
  (`NamesComeBackExactly`), and an asset called `SHA256SUMS` is overwritten by the manifest
  (`BundleChecks`); `_validate_asset_basename` accepts both kinds of names.
* The step-order checks report nothing about a file that is absent, and the contracts in
  `WorkflowChecks` say so; `check_required_files_exist` (`scripts/ci/check_workflows.py:221-226`) reports it.

## Model

| member | source | states |
|---|---|---|
| CrashableDisk.PowerLossKeepsHealth | state/storage.py:94-128 | After any power loss on a healthy disk the counter is readable, lies between the durable floor and the value before, and the disk is healthy again |
| CrashableDisk.ReadableAfterPowerLossExactly | state/storage.py:94-109 | Every power loss leaves a readable counter if and only if every file that a still recoverable snapshot names as the counter is a complete record on the platter |
| CrashableDisk.SurvivesExactly | state/storage.py:113-128 | A value survives every power loss if and only if it is at most the floor, which only a directory fsync raises |
| CounterStore.StepKeepsHealth | state/storage.py:61-128 | Every successful or failing step of an increment keeps the disk crash safe, raises the counter by one exactly at the rename, and never lowers the floor |
| CounterStore.ReplaceKeepsHealth | state/storage.py:106-106 | The rename is safe because the record under the temporary name is complete and fsynced by then; older snapshots keep their smaller values |
| CounterStore.WriteIsNecessary | state/storage.py:100-106 | Opening empties the temporary file, whatever a killed write left in it: a rename without a new record would corrupt the counter |
| CounterStore.FileFsyncIsNecessary | state/storage.py:101-106 | A rename without the fsync of the file can be followed by a power loss that leaves a corrupt counter |
| CounterStore.DirectoryFsyncIsNecessary | state/storage.py:113-128 | A rename without the fsync of the directory can be followed by a power loss that brings the old value back |
| StateStorage.RunOutcome | state/storage.py:61-128 | Along every run of an increment the disk is healthy after each system call, and the counter goes up by one if and only if the rename was reached |
| StateStorage.StateStore.Read | state/storage.py:53-59 | An absent file reads as zero without a call, a returned value is the stored one, and corruption is reported if and only if the recorded read of an existing file failed or it holds no record |
| StateStorage.WriteRecord | state/storage.py:94-128 | What the record of a write's system calls tells: there is a failure to report if and only if there was no rename or the directory failed to be closed behind it, and the directory is fsynced only behind the rename |
| StateStorage.RemovedExactly | state/storage.py:107-109 | The temporary file is removed if and only if it was opened and not renamed, and that is the last call |
| StateStorage.CompleteRecord | state/storage.py:94-128 | There is one record without failures: open, write, fsync, close, rename, open directory, fsync directory, close directory |
| StateStorage.RunOnHealthyDisk | state/storage.py:61-67 | On a healthy disk the counter goes up by one if and only if the rename succeeded; the call fails with its commit standing if and only if closing the directory failed; and if no call failed, all eight calls were made and the next value is returned and durable |
| StateStorage.StateStore.Increment | state/storage.py:61-67 | The calls recorded are the read, if there is a file, and those of a write, if it could be read; the result is the next value, corruption if reading failed, or an error if and only if a recorded call failed whose failure is reported; every execution is a run of the step machine, with what follows on a healthy disk |
| StateStorage.StateStore.ReadLocked | state/storage.py:69-92 | The same under the lock: an absent file is zero, a readable record its value, everything else corruption |
| StateStorage.StateStore.WriteLocked | state/storage.py:94-111 | The calls recorded are exactly those that the source makes, given how the system answers each; an error comes out if and only if an open, write, fsync, close, rename or closing of the directory failed |
| StateStorage.StateStore.WriteTemp | state/storage.py:101-106 | The file is closed whatever happened to it, and renamed if and only if writing, fsync and close succeeded |
| StateStorage.StateStore.FsyncDir | state/storage.py:113-128 | The directory is opened, fsynced and closed, as recorded; an error is raised if and only if it was opened and closing it failed |
| CounterLog.ValuesAreRanks | state/server.py:80-85 | Without power losses every commit, return and read in lock order carries the start value plus the number of commits up to its place |
| CounterLog.ReturnedValuesIncrease | state/storage.py:61-67 | Returned values increase strictly along the lock order as long as no power loss undid a returned increment |
| CounterLog.SyncedReturnSurvives | state/storage.py:113-128 | A value returned after a successful directory fsync is never undone, whatever follows |
| CounterLog.SuccessesCountUp | state/storage.py:61-67 | Without power losses, and if nothing failed after the rename, the n-th successful increment in lock order returns start + n |
| CounterLog.CommitsOnce | state/server.py:80-85 | No request commits twice |
| CounterLog.CommitsAreRequests | state/server.py:80-85 | There are exactly as many commits as requests that committed |
| CounterChain.NextKeepsInvariant | gateway/server.py:60-93 | Every step of any participant - hops, handler threads, kill, power loss - keeps the invariant over disk, lock, request records and log |
| CounterChain.RunKeepsInvariant | state/server.py:190-194 | The invariant holds in every state of every run |
| ChainGuarantees.NeverCorrupted | state/storage.py:94-128 | At no point of any run from an absent or valid file can a kill or a power loss leave a counter file that a read rejects |
| ChainGuarantees.ReturnedIsDurable | state/storage.py:61-67 | A returned value is still counted after a kill, after a power loss too if its directory fsync succeeded, and the recovered value exceeds it by at most the later commits |
| ChainGuarantees.AtMostOnce | gateway/server.py:144-150 | Each client POST commits at most one increment, nothing else commits, and a 200 carries the value of the one commit made for that request |
| ChainGuarantees.AcknowledgedReturned | app/server.py:131-137 | A 200 at the gateway means that the increment returned exactly that value under the lock |
| ChainGuarantees.ReadsAreObserved | gateway/server.py:135-141 | A 200 on a GET carries the value that the counter had when that request held the lock |
| ChainGuarantees.CountingIsExact | app/server.py:46-79 | Without power losses the stored value is the initial one plus the commits, and these lie between the number of 200s and the number of POSTs |
| ChainGuarantees.CommitsBetween | gateway/server.py:60-93 | The two bounds on the commits hold in every run, with power losses too |
| ChainGuarantees.Linearizable | state/server.py:190-194 | For every interleaving of handler threads on the shared store the results are those of the lock order |
| ChainGuarantees.AnswersAreDistinct | gateway/server.py:144-150 | No two POSTs get the same value if no power loss undid a returned increment, in particular if there was none or all directory fsyncs succeeded |
| CounterOrder.RealTimeOrder | gateway/server.py:144-150 | Without power losses, a request that arrives after another was answered 200 gets a larger value if it is a POST and no smaller one if it is a GET |
| CounterOrder.SuccessesAreNumbered | state/storage.py:61-67 | In every run without crashes and without failures after the commit, the n-th successful increment in lock order returns the initial value plus n |
| PossibleRuns.PostSucceeds | state/storage.py:94-128 | From every idle state a POST can succeed with its directory fsync failing, and then the previous value can still come back |
| LostAcknowledgements.TwoAnswersCanBeEqual | state/storage.py:123-126 | From every idle state one failing directory fsync and one power loss lead to two 200s with the same value |
| LostAcknowledgements.RepetitionExactly | state/storage.py:113-128 | From an idle state no further run without power loss returns a value again if and only if no value returned so far is above the stored one |
| LostAcknowledgements.PowerLossRepetitionExactly | state/storage.py:113-128 | At any point of any run, no power loss followed by a run without one repeats a value if and only if every value returned so far is at most the durable floor |
| PossibleRuns.CommitCanFail | state/storage.py:127-128 | From every idle state a failing close of the directory leads to a POST whose increment is committed and whose client gets 503 |
| PossibleRuns.AnswerCanBeLost | app/server.py:53-64 | From every idle state there is a POST whose increment returns and stays while its client gets 503, because the app or the gateway gave up waiting |
| PossibleRuns.LateRequestCounts | gateway/server.py:67-83 | From every idle state a POST can be counted although its client was told 503 before the request reached the app, and the app gave up before it reached state |
| PossibleRuns.KillAfterCommit | state/storage.py:106-111 | From every idle state a kill behind the rename leaves an increment that is counted and was never answered; every handler waiting for the lock is gone, and the lock is free |
| PossibleRuns.GetSucceeds | state/server.py:72-77 | From every idle state a GET can be answered 200, with the stored value at every hop, and changes nothing |
| PossibleRuns.GetCanFail | state/server.py:72-77 | If there is a file, a GET can also fail with 500 at state and 503 at the other hops |
| VersionComponent.VerRevCmp | scripts/security/debian_version.py:44-77 | The two-index loop terminates and returns the zero-padded lexicographic comparison of the components' integer codes |
| VersionComponent.PaddedCompareMeaning | scripts/security/debian_version.py:28-77 | The sign is decided by the first position where the padded codes differ; zero means that there is none |
| VersionComponent.PaddedTransitive | scripts/security/debian_version.py:44-77 | The comparison is transitive, and equality at the ends forces equality in between |
| VersionComponent.CodeConcat | scripts/security/debian_version.py:44-77 | Codes of concatenated components concatenate when the cut does not split a digit run |
| VersionComponent.TildeSortsBelowEverything | scripts/security/debian_version.py:28-41 | For all x and y, x~y is strictly below x, and x followed by any other non-digit is strictly above it |
| VersionComponent.EqualExactlyUpToZeros | scripts/security/debian_version.py:44-77 | Components compare equal if and only if they differ only in leading zeros of digit runs and in a missing final run against a zero one |
| Text.ClassesExactly | scripts/security/debian_version.py:33-38 | Which characters are digits, letters and white space, one by one |
| VersionRanking.CharactersRank | scripts/security/debian_version.py:28-41 | Where two components first differ in characters that are no digits, the tilde is below everything, letters are ranked by code point, and all other characters come above the letters, by code point |
| VersionRanking.CharacterAgainstNumber | scripts/security/debian_version.py:54-65 | Against a number the tilde ranks below and every other character above |
| VersionRanking.CharacterAgainstEnd | scripts/security/debian_version.py:54-65 | Against the end of the component the tilde ranks below and every other character above |
| VersionRanking.NumbersRank | scripts/security/debian_version.py:65-75 | Where two components first differ in whole numbers, the values of these decide, whatever stands behind |
| VersionRanking.NumberAgainstEnd | scripts/security/debian_version.py:65-75 | A missing number counts as zero |
| DebianVersion.SplitRendered | scripts/security/debian_version.py:80-110 | Splitting recovers epoch, upstream version and revision from every version written out of unambiguous parts, with any surrounding white space |
| DebianVersion.SplitIsRendered | scripts/security/debian_version.py:80-110 | Splitting accepts nothing else, and returns exactly the parts |
| DebianVersion.CompareDebianVersions | scripts/security/debian_version.py:113-132 | The comparison by epoch, upstream version and revision equals the specified order, including which malformed side is reported |
| DebianVersion.CompareExactly | scripts/security/debian_version.py:113-132 | The result is -1 if and only if both versions are well-formed and the epoch is smaller, or it is equal and the upstream version is below at the first place where the codes differ, or that is the same throughout and the revision is below; it is 1 if and only if the same holds the other way round |
| DebianVersion.CompareIsTotalPreorder | scripts/security/debian_version.py:113-132 | The comparison is defined exactly on well-formed versions, and there reflexive, antisymmetric in sign, total and transitive |
| DebianVersion.EqualVersionsInterchangeable | scripts/security/debian_version.py:113-132 | Versions that compare equal give the same result against every third version, malformed ones included |
| DebianVersion.IsOlderIsStrictWeakOrder | scripts/security/debian_version.py:135-137 | `is_older` is a strict weak order and fails exactly on malformed input |
| DebianVersion.IsOlderExactly | scripts/security/debian_version.py:135-137 | A version is older if and only if it precedes the other one in epoch, upstream version or revision, in that order |
| DebianVersion.TildeVersionIsOlder | scripts/security/debian_version.py:28-41 | A tilde pre-release is older than its release, whatever the revisions |
| PatchLifecycle.RedundantUpward | scripts/security/patch_lifecycle_check.py:123-189 | Once a base is redundant, every well-formed base that is not older is redundant |
| PatchLifecycle.NeededDownward | scripts/security/patch_lifecycle_check.py:123-189 | While the overlay is needed, it is needed for every well-formed base that is not newer |
| PatchLifecycle.PassIsWarranted | scripts/security/patch_lifecycle_check.py:123-189 | PASS implies that the overlay is needed for the base and every well-formed base that is not newer, that the patched version would be redundant, and that every redundant base is strictly newer than the base |
| PatchLifecycle.RedundancyIsThreshold | scripts/security/patch_lifecycle_check.py:123-189 | A base is redundant if and only if it is well-formed and all bases that are not older are; and if any base is, the patched version is, and none below it |
| PatchLifecycle.EqualBasesAgree | scripts/security/patch_lifecycle_check.py:123-189 | Bases that compare equal get the same verdict on redundancy |
| PatchLifecycle.WrittenVerdict | scripts/security/patch_lifecycle_check.py:123-189 | For versions written from unambiguous parts, the overlay is redundant if and only if the base's parts do not precede those of the patched version |
| PatchLifecycle.NumberDecides | scripts/security/patch_lifecycle_check.py:123-189 | If the upstream versions first differ in a number, the base is redundant if and only if its number is larger, whatever the revisions are |
| PatchLifecycle.RecordedVersionsPass | scripts/security/patch_lifecycle_check.py:123-189 | With the versions that the repository records, the check passes on the vulnerable one, and the patched one would be redundant |
| MemoryStrings.MemoryBytesOfUnit | scripts/reliability/reliability_check.py:534-547 | An optional sign and digits are read as that many bytes, times 1024 with k, 1048576 with m, 1073741824 with g, in either case, with white space before the unit and around the whole |
| MemoryStrings.OnlyUnitsAreRead | scripts/reliability/reliability_check.py:537-547 | Everything else raises |
| MemoryStrings.MemoryBytesOfIntString | scripts/reliability/reliability_check.py:537-547 | Every integer limit written out for the restore is read back unchanged, negative ones included, and with a unit as that multiple |
| ContainerUpdate.ExpectedLimitsCount | scripts/reliability/reliability_check.py:660-663 | Limits given by the caller are the ones verified; where none are given the command's own are |
| ContainerUpdate.SixMegabytes | scripts/reliability/reliability_check.py:1183-1183 | With the limits of the persistent-failure scenario the action is reached if and only if an inspection showed 6291456 bytes for both |
| ContainerUpdate.CeilingMeaning | scripts/reliability/reliability_check.py:708-714 | The bound on the updates is the least number of intervals that reaches the deadline |
| ContainerUpdate.UpdateVerified | scripts/reliability/reliability_check.py:613-714 | The calls are (transient failure, mismatching inspection, pause of at most the interval)* and one last attempt that determines the outcome; a transient race is given up only once the deadline has passed, only the last pause is shorter than the interval, and there are at most ceil(deadline/interval) + 1 updates |
| ContainerUpdate.EarlierThanDeadline | scripts/reliability/reliability_check.py:672-714 | While the deadline lies ahead, no more attempts were made than whole intervals are needed to reach it |
| ContainerUpdate.VerifiedMeansInspected | scripts/reliability/reliability_check.py:613-714 | The update succeeds if and only if its last call was an inspection that showed both wanted values |
| ContainerUpdate.RetriesOnlyTransientRaces | scripts/reliability/reliability_check.py:613-714 | An update is followed by another only after a transient failure and an inspection that showed other values, never after any other failure or after a success that did not verify |
| ContainerUpdate.WithMemoryShrinkRestored | scripts/reliability/reliability_check.py:717-807 | The wrapper's calls are the shrink, the action and the restore, whatever Docker and the action do, and its result is determined by them; shrink and restore give up on a transient race only after the whole retry deadline |
| ContainerUpdate.InspectAndShrink | scripts/reliability/reliability_check.py:768-777 | Up to the action: the original limits are those first inspected, the action is not reached unless the shrink verified, and there are at most 21 updates |
| ContainerUpdate.ActAndRestore | scripts/reliability/reliability_check.py:779-807 | From the action on: a restore is performed, with at most 21 updates, whether the action succeeds or raises, and its failure takes precedence |
| ContainerUpdate.ShrinkIsVerified | scripts/reliability/reliability_check.py:768-777 | The action is reached if and only if the last inspection showed the smaller limits |
| ContainerUpdate.RestoreGuarantee | scripts/reliability/reliability_check.py:779-807 | A restore update for exactly the original limits is attempted if and only if they were known; the action's own result or exception comes out if and only if the last inspection showed them; otherwise the restore's failure does, with the action's as its cause |
| PlatformConfig.GatewayConfigSuitsApp | gateway/platform_config.py:110-186 | Every configuration that the gateway loader accepts is accepted by the app loader with the same inner timeout, and its outer budget exceeds inner timeout plus margin |
| PlatformConfig.GatewayAcceptsExactly | gateway/platform_config.py:92-186 | The gateway loader accepts a file if and only if the app loader does, its own two numbers are in range, and outer > inner + margin; it returns those numbers |
| PlatformConfig.AppAcceptsExactly | app/platform_config.py:61-117 | The app accepts no file, with two seconds, or an object of schema version 1 whose inner timeout, two seconds unless given, is a number above zero and at most thirty |
| PlatformConfig.GatewayAcceptsNumbers | gateway/platform_config.py:66-186 | The gateway accepts the same with an outer timeout of at most sixty seconds and a margin of at most thirty, five and one unless given, whose outer timeout exceeds the sum of the others, and returns these numbers |
| TimeoutBudget.RunStaysInBudget | app/server.py:53-66 | In every timed run with a silent state service and delays within the margin, the gateway never times out by itself |
| TimeoutBudget.AnsweredWithinBudget | gateway/server.py:67-83 | With an accepted configuration the app's 503 is received strictly before the gateway's timeout, and never after inner plus outer |
| TimeoutBudget.HierarchyIsNecessary | gateway/platform_config.py:110-124 | For positive timeouts, no run lets the gateway time out if and only if outer > inner + margin |
| TimeoutBudget.EveryDelayIsPossible | app/server.py:53-66 | The bound is attained: with any delays up to the margin there is a run in which the 503 arrives after exactly the inner timeout and the delays |
| WorkflowText.ExtractBlock | scripts/ci/check_workflows.py:116-129 | The loop returns the block below the key line |
| WorkflowText.BlockIsLongestRun | scripts/ci/check_workflows.py:116-129 | A block is exactly the longest run of lines that are blank, comments, or indented deeper than the key |
| WorkflowText.ListItems | scripts/ci/check_workflows.py:164-184 | The loop over items and item indent computes the specified groups |
| WorkflowText.ItemsAreThePartition | scripts/ci/check_workflows.py:164-184 | For every block, concatenating the items gives the block from its first list marker on; every item starts with a marker, all at one indent, and holds no other marker at that indent |
| WorkflowText.ItemsOfJoined | scripts/ci/check_workflows.py:164-184 | That partition is the only one: items written one after the other are recovered |
| WorkflowText.FirstIndentExactly | scripts/ci/check_workflows.py:146-146 | The indent sought is that of the first line that is not blank, be it a comment |
| WorkflowRendering.FindsTopLevel | scripts/ci/check_workflows.py:132-137 | The block of the first top-level key of a name is found exactly, whatever it holds, with a comment behind the key or not, and whatever follows |
| WorkflowRendering.OtherKeysAreNot | scripts/ci/check_workflows.py:108-113 | A line with another key is not taken for the key sought |
| WorkflowRendering.KeysWithValuesAreNot | scripts/ci/check_workflows.py:108-113 | Nor is one with a value behind the key |
| WorkflowRendering.StepsOfBody | scripts/ci/check_workflows.py:156-161 | The steps of a printed job are found between its other keys, with blank lines and comments of any indent anywhere |
| WorkflowRendering.FindsJob | scripts/ci/check_workflows.py:140-153 | The first job of a name is found among the printed jobs, which may have any lines in their bodies, with nothing of those behind it; blank lines and comments of any indent may stand in and between the jobs |
| WorkflowRendering.JobIsFoundExactly | scripts/ci/check_workflows.py:140-153 | On lines with their comments, a printed job is found if and only if the first line below `jobs:` that is not blank, comment or not, has the indent of the jobs; otherwise nothing is; both if no deeper key of that name stands at the indent sought |
| WorkflowRendering.StepsAreRecovered | scripts/ci/check_workflows.py:104-184 | Round trip on lines as they are: job, steps block and list items of a workflow printed with strictly deeper indentation are recovered group by group and line by line, with blank lines and comments of any indent in steps, between steps, before and behind keys, and between jobs, if no comment before the first job misleads `job_block`; lines behind a step belong to its group |
| WorkflowComments.BlockOfStripped | scripts/ci/check_workflows.py:194-209 | For all lines, stripping comments and extracting a block commute |
| WorkflowComments.StripPrinted | scripts/ci/check_workflows.py:209-209 | Stripping the comments of a printed workflow gives the workflow printed without them |
| WorkflowComments.StrippedJobIsFound | scripts/ci/check_workflows.py:140-153 | Among stripped lines the first job of a name is always found, wherever comments stood in the file |
| WorkflowComments.StrippedStepsAreRecovered | scripts/ci/check_workflows.py:104-218 | Round trip as the checks run it: from the stripped file, the steps of a job are recovered group by group and line by line without their comments, wherever comments stood - on lines of their own at any indent, behind `jobs:`, job names, keys or list items |
| WorkflowChecks.FirstBeforeFirst | scripts/ci/check_workflows.py:424-455 | Comparing first positions decides the universal statement: every step of one kind has an earlier step of the other kind |
| TextSearch.OccurrenceIsFound | scripts/ci/check_workflows.py:428-428 | A text is found wherever it stands |
| TextSearch.FoundOccurs | scripts/ci/check_workflows.py:428-428 | What is found stands somewhere |
| TextSearch.FoundInALine | scripts/ci/check_workflows.py:426-437 | A text without line breaks is found in a step if and only if one of its lines contains it |
| TextSearch.ExitIsFound | scripts/ci/check_workflows.py:591-591 | An `exit` with white space and a digit from 1 to 9 behind it is found wherever it stands |
| TextSearch.FoundExits | scripts/ci/check_workflows.py:591-591 | Nothing else is |
| TextSearch.SeenIsCondition | scripts/ci/check_workflows.py:509-509 | A condition is a line that starts with `if:` behind white space |
| WorkflowChecks.StepKinds | scripts/ci/check_workflows.py:428-585 | A step is a release check, a cleanup, a context validation or a release creation if and only if one of its lines contains the command |
| WorkflowChecks.BuilderStep | scripts/ci/check_workflows.py:433-440 | A step creates the builder if and only if its lines contain all three parts of the command |
| WorkflowChecks.GuardStep | scripts/ci/check_workflows.py:590-593 | A step guards the release if and only if one of its lines queries the release and it contains a failing exit |
| WorkflowChecks.SeenReleaseCheck | scripts/ci/check_workflows.py:428-428 | A release check has the command on one of its lines, with anything before and behind |
| WorkflowChecks.CheckBuilder | scripts/ci/check_workflows.py:417-468 | No finding if and only if the job exists, runs a release check, every release-check step has an earlier builder-creation step, and the first cleanup step always runs; otherwise what is reported is exactly what is missing |
| WorkflowChecks.CheckBuilders | scripts/ci/check_workflows.py:397-469 | What is reported is what is reported of `release-policy` in `ci.yml` and then of `validate` in `release.yml`, where the files are present; so nothing if and only if all that holds of both jobs |
| WorkflowChecks.CheckContext | scripts/ci/check_workflows.py:493-542 | What is reported is exactly what is missing: the job, the validation, its being unconditional, `--event-name`, `--ref`, its standing before every release check |
| WorkflowChecks.CheckReleaseContext | scripts/ci/check_workflows.py:472-542 | No finding if and only if the first validating step is unconditional with explicit context and no release-check step stands before every validating step |
| WorkflowChecks.CheckGuard | scripts/ci/check_workflows.py:574-609 | What is reported of the publish job is exactly what is missing: the job, the creation, the guard, its standing before every creation |
| WorkflowChecks.CheckNoReleaseClobber | scripts/ci/check_workflows.py:545-609 | No finding if and only if no file mentions `--clobber` and every release-creating step has an earlier failing guard step; each file that mentions it is reported once |
| Dockerfile.ParseInstructions | scripts/lint/check_dockerfile.py:110-140 | The loop over physical lines computes the specified instructions, for every list of lines |
| Dockerfile.LinesIncrease | scripts/lint/check_dockerfile.py:110-140 | Instructions carry numbers of physical lines of the file, strictly increasing |
| Dockerfile.ReadChunk | scripts/lint/check_dockerfile.py:116-138 | The physical lines of one instruction give that instruction with the number of the first of them |
| Dockerfile.WrittenFileIsParsed | scripts/lint/check_dockerfile.py:110-140 | Round trip: instructions wrapped over any number of non-empty pieces, with any white space at either end of each line and before each backslash, and with blank and comment lines between instructions, are recovered with their first line numbers |
| Dockerfile.UnfinishedIsDropped | scripts/lint/check_dockerfile.py:126-128 | An instruction whose last line in the file announces another one is dropped, and all before it are recovered |
| Dockerfile.IgnoredExactly | scripts/lint/check_dockerfile.py:117-121 | Outside an instruction a line is passed over if and only if it is blank or its first other character is a `#` |
| Dockerfile.UpperExactly | scripts/lint/check_dockerfile.py:135-135 | Small letters turn into the capital ones, all other characters stay, so `from` is a FROM |
| Dockerfile.LowerExactly | scripts/lint/check_dockerfile.py:339-339 | Capital letters turn into the small ones, all other characters stay |
| Dockerfile.SplitStages | scripts/lint/check_dockerfile.py:143-160 | Every stage starts with its only FROM, the stages concatenate to the instructions from the first FROM on, and there are as many as there are FROMs |
| Dockerfile.StagesAreFroms | scripts/lint/check_dockerfile.py:143-160 | There is one stage for every FROM of the file, in order, and it starts with that FROM |
| Dockerfile.StagesAreUnique | scripts/lint/check_dockerfile.py:143-160 | There is only one such list of stages |
| Dockerfile.SecurityPatchStageIndex | scripts/lint/check_dockerfile.py:333-342 | The index is that of the first stage whose first FROM names the security-patch stage; none is returned only if there is none |
| Dockerfile.PatchStageExactly | scripts/lint/check_dockerfile.py:338-340 | The words of a FROM name the security-patch stage if and only if the second is `as` and the third `security-patch`, in capital or small letters |
| Dockerfile.WordsOfJoin | scripts/lint/check_dockerfile.py:338-338 | The words of joined texts are the words of the texts one after the other, so the tokens of a FROM do not depend on how it was wrapped |
| Dockerfile.WrittenStageIsPatch | scripts/lint/check_dockerfile.py:110-160 | For every written file, parsed and split: there is one stage for each written FROM, and it is the security-patch stage if and only if the second word written there is AS and the third security-patch, in any case; if every text is one word, these are the second and third texts |
| NameOrder.SortedIsAscending | scripts/release/prepare_release_bundle.py:100-100 | Sorting gives an ascending permutation of the names |
| NameOrder.AscendingIsUnique | scripts/release/prepare_release_bundle.py:100-110 | There is only one, so the manifest does not depend on the order of the sources |
| NameOrder.AtMostExactly | scripts/release/prepare_release_bundle.py:100-110 | The order is that of the first character in which two names differ; a name comes before those that continue it |
| ManifestText.JoinedLinesAreSplit | scripts/release/prepare_release_bundle.py:118-131 | Lines without separators, joined as the writer joins them, are split again by the validator; no lines give one empty line |
| ManifestText.JoinLinesSnoc | scripts/release/prepare_release_bundle.py:118-118 | Each line of the manifest is followed by a line break, and there is nothing else |
| ManifestText.LineEnds | scripts/release/prepare_release_bundle.py:130-130 | Each of the ten separators of `splitlines` ends a line wherever it stands |
| ManifestText.CarriageReturnLineFeed | scripts/release/prepare_release_bundle.py:130-130 | A carriage return with a line feed behind it ends one line |
| ManifestText.DigestExactly | scripts/release/prepare_release_bundle.py:58-58 | A digest is 64 of the sixteen lower-case hexadecimal digits |
| ManifestText.DividedIsNoBasename | scripts/release/prepare_release_bundle.py:65-74 | No name with a slash or a backslash in it is a bare basename, nor are the empty one, `.` and `..` |
| ManifestText.OthersAreDivided | scripts/release/prepare_release_bundle.py:65-74 | Every other name is one |
| ManifestText.EntryRoundTrip | scripts/release/prepare_release_bundle.py:58-58 | The line pattern matches exactly the printed entries with a 64-digit lower-case digest and a name, and recovers both |
| ManifestText.ValidateManifest | scripts/release/prepare_release_bundle.py:122-141 | The validator reports the problem of the first line that has one, given the names recorded before it |
| ManifestText.AcceptedExactly | scripts/release/prepare_release_bundle.py:122-141 | It accepts if and only if every line is blank or records a bare basename and no name is recorded twice |
| ManifestText.ProblemIsFirst | scripts/release/prepare_release_bundle.py:130-141 | The problem reported is that of the first unfit line, with its number: no entry, no bare basename, or a name recorded before |
| ReleaseBundle.StagingDir.Stage | scripts/release/prepare_release_bundle.py:77-100 | The directory holds exactly the sources before the first faulty one in addition to what it held; the fault is that source's, and success returns the sorted names |
| ReleaseBundle.StagesExactly | scripts/release/prepare_release_bundle.py:77-100 | Staging succeeds if and only if every source is a file with a bare basename and all basenames differ; so a duplicate always raises |
| ReleaseBundle.StopsAtFirstFault | scripts/release/prepare_release_bundle.py:88-99 | The fault reported is that of the first source which makes the list unfit: missing, else no bare basename, else the name of an earlier source |
| ReleaseBundle.CopiedExactly | scripts/release/prepare_release_bundle.py:89-99 | Every staged file has its source's content, and no other file appears or changes |
| ReleaseBundle.StagingDir.WriteSums | scripts/release/prepare_release_bundle.py:103-119 | A fault leaves the directory as it was; otherwise only the manifest changes |
| ReleaseBundle.ManifestRoundTrip | scripts/release/prepare_release_bundle.py:103-141 | The manifest parses back to exactly the sorted names with the digests of their contents, for any hash with 64 hex digits, and is accepted if and only if no name occurs twice |
| ReleaseBundle.NamesComeBackExactly | scripts/release/prepare_release_bundle.py:103-141 | The names are read back if and only if none of them contains a line separator |
| ReleaseBundle.ChecksExactly | scripts/release/prepare_release_bundle.py:144-177 | With the original manifest, a later bundle passes the consumer's check if and only if every asset is there with an unchanged digest: missing, renamed and modified assets are seen |
| ReleaseBundle.BundleChecks | scripts/release/prepare_release_bundle.py:103-119 | The bundle as written passes that check if and only if no asset of the manifest's own name is overwritten with other content |
| ReleaseBundle.StagingDir.Prepare | scripts/release/prepare_release_bundle.py:220-226 | The result is the fault of the staging, or the validator's problem with the manifest, or the sorted names; success means that exactly the sources and the manifest are in the directory; fit sources with names of one line always succeed, and the consumer's check then passes |

## Left out

- HTTP parsing, sockets, headers, HEAD and 405 answers, logging and signals: a hop is a request that is delivered, lost or late, and an answer.
- Full JSON parsing of the counter file: its content is a record or is none. Invalid UTF-8, which raises something other than `CorruptedStateError`, and schema versions that are booleans or floats are not told apart.
- StateStorage.StateStore.Read: does not acquire the lock itself; the class is the code between acquiring and releasing it, and `CounterChain` holds the lock for whole runs of that code.
- StateStorage.StateStore.Increment: the exact exception of a failing cleanup or close is not told apart from that of the failing call.
- ContainerUpdate.UpdateVerified: requires a positive retry interval; a non-positive one is never passed by the callers, and only the deadline would bound it.
- The regular expressions that recognise the cgroup race: the classifier's verdict on an error output is an arbitrary boolean, with the exit code.
- Docker, git, Compose, Syft, Trivy and `sha256sum` subprocesses and all `main()` functions, except the order of calls in the release bundle's.
- TimeoutBudget.AnsweredWithinBudget: the app waits in one silent socket operation; time spent in earlier operations counts as delay, and DNS lookup, which no timeout bounds, is not covered.
- Floating point rounding of timeouts and clocks.
- Non-ASCII characters, except in line separators; underscores in Python's `int()`.
- Python's limit on the number of digits that `int()` converts, 4300 by default: beyond it a digit run of a version or an epoch raises ValueError, which `classify_patch_lifecycle` does not catch; numbers are unbounded here.
- Whole texts in the workflow and Dockerfile readers: the models start from lists of lines, so an empty last line that `_strip_comments` leaves behind is kept where joining and splitting again drops it.
- WorkflowComments.StrippedStepsAreRecovered: job names that contain `#` are not covered; stripping cuts them.
- Dockerfile.WrittenFileIsParsed: continuation lines that are empty but for the backslash and comment lines between continuation lines are read as the code reads them, but are not written by the round trip.
- The Dockerfile lint rules that compare single instructions with fixed strings or with the lock file: settled by reading single branches.
- The checks of triggers, permissions and action pins in the workflow files.
- ReleaseBundle.StagingDir.Stage: sources lie outside the staging directory, and a staged name is never that of a subdirectory; file modes and times are not modelled.
- ReleaseBundle.ChecksExactly: what `sha256sum -c` says about an empty manifest or about a file called `-` is not part of this model.
- Health and readiness routes, Compose files, and the documentation checks.
