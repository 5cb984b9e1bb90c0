# NAS control plane: verified model

This project models the transactional core of a NAS control plane and proves what it promises: workflows over
durable records that survive a failure or a crash at any effect, lock protocols under every interleaving, and the
small compilers that turn desired state into configuration.

How the models are built:

- **Protocols between processes** (`RollbackGuard.dfy`, `OperationLock.dfy`) are labelled transition systems. A
  schedule is a list of labels; the main results quantify over every legal schedule, with deaths at any step. From
  every state with the lock free an operation left alone also completes.
- **Workflows that change state step by step** (`Backup.dfy`, `Syncthing.dfy`, `Journals.dfy`, `Setup.dfy`,
  `Accounts.dfy`, `Bundle.dfy`, `Apply.dfy`, `Archive.dfy`, `Restore.dfy`) are classes whose methods follow the
  original's order of effects. Each effect ends as the environment decides: done, failed (with or without having
  happened), or, where the original is meant to survive it, cut short by a death. A death returns at once, so what a
  method ensures for a crashed outcome holds at every crash point. Driver methods (`Lifetime`, `Obey`,
  `ReconcileUntilDone`, `ApplyRepeatedly`) string any number of runs together. A ghost counter `faults` counts the
  effects that did not succeed, so that contracts also say what a run without faults achieves and what a single
  fault leaves; other ghost fields record requests, answers and journal entries where the result does not show them.
- **Computations** (`Release.dfy`, `Routes.dfy`, `GroupHeader.dfy`, `Accelerator.dfy`) are functions with lemmas, and
  methods with loops proved equal to those functions where the original loops.
- `Options.dfy`, `Effects.dfy`, `Text.dfy` and `Sorting.dfy` hold what several of them share.

Where a promise does not hold of the code for every input, the code is kept as it is and the exact condition is proved:

- `Syncthing.Appliance.RewriteJournal`, `Syncthing.ChangedTargetOrphans`: overwriting an interrupted journal for another
  target keeps the records sound iff no live object of the first attempt is outside the ownership file and the new
  target; a folder that is, becomes an orphan that later runs treat as unmanaged.
- `Setup.Appliance.FirstRun`, `Setup.Appliance.Obey`, `Setup.WedgedForever`: after the report is published a retry with
  the same plan completes the journal iff the journal is not failed, awaiting recovery or reconciled. A failure
  recorded after publication is never got rid of: the operator is told to acknowledge it, but acknowledging writes
  `reconciled`, which the retry does not accept either.
- `Archive.Extractor.ExtractBundle`: a rejected archive leaves exactly the earlier paths unless a chain of parent
  directories was made half or a removal of the undo failed, and it leaves the modes its directory members gave to
  directories that were already there.
- `OperationLock.AcceptanceIsSoundIffNotLeaked`, `OperationLock.LeakedTokenIsAccepted`: a holder that dies leaves a
  token that a validator accepts while a mere probe holds the lock.
- `Apply.FixedPointIffSeparate`: repeated applies come to rest iff no output or plan path looks like a stale unit.
- `Restore.RollbackIsExactIff`: from any intermediate state a rollback is exact iff no required authority that was
  missing has been filled in.
- `Routes.PatternsExactIff`: a route path that ends in two slashes does not match what lies below it.
- `GroupHeader.AcceptsIffListed`: white space at the very ends of the groups header hides the first or last name.
- `Release.NextVersion`: an unreleased source is refused not only when a release is not behind it but also when the
  epoch's numbering has a gap; `Release.Repository.Publish` shows that publications never leave one.
- `Accelerator.GrantIsExact`: an `any` request is served from the first vendor with anything to offer, and dropped
  when that vendor has too few cards even if a later one has enough.

## Model

| member | source | states |
|---|---|---|
| `RollbackGuard.StepKeepsExclusion` | services/nas_guarded_apply.py:119-136 | every step of every process keeps the flock exclusive, and what a holder has read is still the record |
| `RollbackGuard.StepKeepsOwnership` | services/nas_guarded_apply.py:362-435 | every step keeps each claimant the owner of the record and each running command owned by the process that launched it |
| `RollbackGuard.StepKeepsHistory` | services/nas_guarded_apply.py:194-435 | every step keeps the durable history accepted by the record automaton and in agreement with the record |
| `RollbackGuard.WriteMatchesEvent` | services/nas_guarded_apply.py:214-464 | each guarded write moves the record's phase exactly as its event moves the automaton, and none of them overwrites a claim |
| `RollbackGuard.RunKeepsInv` | services/nas_guarded_apply.py:194-470 | the invariant holds after every legal schedule of arm, cancel, fired and collect with deaths anywhere |
| `RollbackGuard.OneRollbackAtATime` | services/nas_guarded_apply.py:376-435 | in every run at most one rollback command executes, and meanwhile the record is claimed by the process that launched it |
| `RollbackGuard.OnlyTheClaimantMovesAClaim` | services/nas_guarded_apply.py:417-435 | a claimed record changes only by its claimant's terminal write, after the command has ended, to completed if the exit code is 0 and to failed otherwise |
| `RollbackGuard.WritesExactlyWhen` | services/nas_guarded_apply.py:214-464 | in every run, exactly when arm, cancel, fired and collect may write, by the phase of the record |
| `RollbackGuard.FirstWritesAreExact` | services/nas_guarded_apply.py:214-464 | in every run, the record each operation writes, phase by phase: arm carries its command, cancel ends failed iff the service was seen failed and cancelled otherwise, fired claims, collect keeps the prior phase |
| `RollbackGuard.SecondWritesAreExact` | services/nas_guarded_apply.py:417-435 | in every run the terminal write ends completed iff the exit code is 0 and failed iff it is not, with the code and the fired command; a rejected timer removes the record |
| `RollbackGuard.EveryChangeIsLogged` | services/nas_guarded_apply.py:194-470 | every step that changes the record adds one event that tells the new phase, and no other step adds a write |
| `RollbackGuard.ExitCodeIsKept` | services/nas_guarded_apply.py:400-420 | the exit code a command ended with is the one its process carries to the terminal write |
| `RollbackGuard.FireCompletes` | services/nas_guarded_apply.py:362-435 | from every state with the lock free and an armed or missing record, fired left alone can claim, run the command and record how it ended |
| `RollbackGuard.ArmCompletes` | services/nas_guarded_apply.py:194-284 | from every state with the lock free and no pending record, arm left alone ends armed, and with a rejected timer without a record |
| `RollbackGuard.CancelAndCollectComplete` | services/nas_guarded_apply.py:287-464 | from every state with the lock free, cancel left alone ends an armed record and collect one with an outcome |
| `RollbackGuard.StaysWithin` | services/nas_guarded_apply.py:214-464 | a history stays within a region of phases until the one event that leaves it |
| `RollbackGuard.Separated` | services/nas_guarded_apply.py:214-464 | two events, the second of which the region after the first excludes, have the leaving event between them |
| `RollbackGuard.OneLaunchPerEpoch` | services/nas_guarded_apply.py:376-416 | two rollback starts always have an armed write between them |
| `RollbackGuard.CancelExcludesLaunch` | services/nas_guarded_apply.py:287-360 | a successful cancel and a rollback start, in either order, lie in different arming epochs |
| `RollbackGuard.OutcomesSurviveUntilCollected` | services/nas_guarded_apply.py:214-273 | between a completed or failed outcome and a later arm there is a collect, also when a failed arm removes its record |
| `RollbackGuard.OutcomeIsStable` | services/nas_guarded_apply.py:438-469 | no step changes an uncollected outcome except a collect, which keeps the prior phase and the exit code |
| `OperationLock.RunKeepsInv` | services/nas_operation_lock.py:183-303 | the lock file speaks for whoever works under the flock, and otherwise only for a leaked token, after every schedule |
| `OperationLock.OrderlyRunsLeakNothing` | services/nas_operation_lock.py:251-303 | when every holder leaves through the release path no token leaks |
| `OperationLock.AcceptanceIsSoundIffNotLeaked` | services/nas_operation_lock.py:183-208 | in every run an accepted token's owner holds the flock at the moment its metadata is read, with the appliance class or every requested class, iff the token has not leaked |
| `OperationLock.AcceptanceInOrderlyRuns` | services/nas_operation_lock.py:183-208 | with orderly release, acceptance implies that the owner holds the flock and its classes cover the request |
| `OperationLock.OneOperationAtATime` | services/nas_operation_lock.py:251-303 | two operations never work at once whatever probes and validators do |
| `OperationLock.LeakedTokenIsAccepted` | services/nas_operation_lock.py:183-208 | a schedule in which a dead holder's token is accepted while only a probe holds the lock |
| `OperationLock.HolderIsRecognized` | services/nas_operation_lock.py:183-208 | in every run, while an operation works, a validator with its token is accepted iff the operation holds the appliance class or every requested class |
| `OperationLock.OperationCompletes` | services/nas_operation_lock.py:251-303 | from every state with the flock free an operation left alone takes it, works under it and leaves the file empty |
| `OperationLock.ValidatorIsRefused` | services/nas_operation_lock.py:183-208 | from every state with the flock free a validator is refused and leaves the flock free |
| `Syncthing.Foreign` | services/nas_identity_sync.py:1206-1214 | the objects computed as unmanaged are exactly the desired live ones in neither record |
| `Syncthing.InterpretMeans` | services/nas_identity_sync.py:1114-1175 | the readings of an interrupted journal by its phase and its previous ownership |
| `Syncthing.AnswersMean` | services/nas_identity_sync.py:1243-1260 | the retained devices are exactly those whose deletion was answered as still referenced or absent, the removed ones those answered with success |
| `Syncthing.Appliance.SoundWithoutJournal` | services/nas_identity_sync.py:1186-1189 | with no journal, taking the live objects outside the ownership file as unmanaged satisfies the invariant |
| `Syncthing.Appliance.InterruptedOwnership` | services/nas_identity_sync.py:1114-1175 | what an interrupted journal yields in each of its five readings, and that only a committed one repairs the ownership file |
| `Syncthing.Appliance.Admit` | services/nas_identity_sync.py:1196-1227 | a run refuses only a target naming an unmanaged object, and rewrites the journal without losing a record; without a fault it is admitted iff the target names none |
| `Syncthing.Appliance.PutDevices` | services/nas_identity_sync.py:1228-1229 | wherever it stops every device is an old one or a desired one; with a faithful server all desired devices are live when done |
| `Syncthing.Appliance.PutFolders` | services/nas_identity_sync.py:1230-1232 | the same for folders, and every desired folder has its directory |
| `Syncthing.Appliance.DeleteFolders` | services/nas_identity_sync.py:1233-1242 | only recorded folders go, and when done all of them are gone |
| `Syncthing.Appliance.DeleteDevices` | services/nas_identity_sync.py:1243-1260 | only the given devices go; when done every one still live was asked for, the retained are exactly those answered as still referenced or absent, and the others were accepted for removal |
| `Syncthing.Appliance.Confirm` | services/nas_identity_sync.py:1261-1273 | the mutated journal keeps the invariant, and a verified configuration has converged |
| `Syncthing.Appliance.Publish` | services/nas_identity_sync.py:1274-1283 | the commit keeps the invariant at every crash point and ends with the ownership file equal to target plus retained devices |
| `Syncthing.Appliance.Reconcile` | services/nas_identity_sync.py:1178-1289 | one run, stopped anywhere: unmanaged objects unchanged, nothing orphaned, refusal only for a target naming an unmanaged object; completed: live owned objects are the target plus retained devices and the ownership file agrees, every live owned device outside the target was asked to go and exactly those refused are retained, every desired folder has its directory and no restart is pending; without a fault and with a faithful server it completes iff the target names no unmanaged object |
| `Syncthing.Appliance.ReconcileUntilDone` | services/nas_identity_sync.py:1114-1289 | the same over any number of crashed or failed runs for one target: a retry never refuses its own half-created objects, and more attempts than faults are enough to complete |
| `Syncthing.Appliance.RewriteJournal` | services/nas_identity_sync.py:1219-1227 | overwriting an interrupted journal keeps the state sound iff nothing is lost, and exactly the live objects named only by the interrupted run leave both records |
| `Syncthing.ChangedTargetOrphans` | services/nas_identity_sync.py:1219-1227 | a concrete state whose live folder is in neither record after the rewrite for another target, and is unmanaged from then on |
| `Accounts.OrderedHolds` | services/nas_identity_sync.py:1573-1573 | the ordered accounts are the plan's accounts |
| `Accounts.OrderedIsPermutation` | services/nas_identity_sync.py:1573-1573 | the sort keeps every account as often as the plan has it |
| `Accounts.OfRankIsStable` | services/nas_identity_sync.py:1573-1573 | accounts of one rank stay in the order of the plan |
| `Accounts.OrderedByRank` | services/nas_identity_sync.py:1565-1573 | promotions come first, and an administrator who is to be demoted is followed only by such |
| `Accounts.AdministratorRemains` | services/nas_identity_sync.py:1546-1573 | at every prefix of the ordered writes some enabled administrator exists |
| `Accounts.WrittenStep` | services/nas_identity_sync.py:1574-1619 | whether or not the next write takes effect an administrator remains and nothing outside the plan changes |
| `Accounts.ProgressEnds` | services/nas_identity_sync.py:1546-1559 | when all accounts are written the administrators are the predicted ones plus those still to be deactivated |
| `Accounts.LeavesAdministratorIff` | services/nas_identity_sync.py:1537-1563 | the predicted set is not empty iff the plan makes an administrator or some administrator is neither planned nor to be deactivated |
| `Accounts.EndsAsPlanned` | services/nas_identity_sync.py:1573-1672 | every planned account has its activity, exactly its planned reserved groups and the managed mark; every managed user the plan no longer names is inactive with the disabled group as its only reserved one; everybody else is unchanged |
| `Accounts.Provider.ApplyAccount` | services/nas_identity_sync.py:1574-1645 | one account is written at most once, a planned password is set, and the journal agrees with the users wherever it stops |
| `Accounts.Provider.WriteAccount` | services/nas_identity_sync.py:1595-1619 | the step is complete when done; a refused request is recorded as the failed step |
| `Accounts.Provider.SetPassword` | services/nas_identity_sync.py:1629-1645 | the password is set on every run and its step completed; a refused request is recorded |
| `Accounts.Provider.ApplyAccounts` | services/nas_identity_sync.py:1573-1645 | wherever the account writes stop an administrator remains; when done every account is as planned and exactly the planned passwords were set |
| `Accounts.Provider.RetireUsers` | services/nas_identity_sync.py:1647-1672 | deactivations never remove a resulting administrator and end with exactly the resulting ones and every user as planned |
| `Accounts.Provider.WriteRetirement` | services/nas_identity_sync.py:1655-1671 | the user is inactive with only the disabled reserved group and the step complete when done; a refused request is recorded |
| `Accounts.Provider.CarryOut` | services/nas_identity_sync.py:1573-1684 | the writes keep an administrator wherever they stop and end with the predicted ones, every user as planned, the planned passwords set and the journal complete |
| `Accounts.Provider.Abort` | services/nas_identity_sync.py:1686-1691 | recording a failure after any save that raised keeps the durable journal in agreement with the users; without a fault the journal is failed or awaits recovery |
| `Accounts.Provider.EnsureGroups` | services/nas_identity_sync.py:378-404 | an administrator group with a member leaves the users alone; an empty one gets the active bootstrap account, and without one it fails |
| `Accounts.Provider.Apply` | services/nas_identity_sync.py:1480-1690 | one run, fresh or resumed, stopped anywhere: an existing administrator is never lost, `akadmin` and non-reserved memberships are untouched; success leaves every user as planned, the planned passwords set and the journal complete, and ignores no fault; a plan that leaves no administrator and an unconfirmed resume change nothing; without a fault it succeeds iff it is confirmed, the journal can be opened and the plan leaves an administrator |
| `Accounts.Provider.ApplyRepeatedly` | services/nas_identity_sync.py:1480-1690 | over any number of interrupted runs of one plan some enabled member of the administrator group remains, and `akadmin` and non-reserved memberships are untouched |
| `Backup.Without` | services/nas_v2_backup.py:600-610 | removing an entry takes away exactly one occurrence |
| `Backup.Host.DestroyOrProbe` | services/nas_v2_backup.py:519-531 | success means the snapshot is gone; a failed removal with an answered probe means it is still there |
| `Backup.Host.DrainSnapshots` | services/nas_v2_backup.py:594-603 | at every crash point each live snapshot is listed; without failures the list is empty and the state file says so |
| `Backup.Host.StopAndRemove` | services/nas_v2_backup.py:604-609 | success means the unit is stopped and then its artifact removed, both in the log |
| `Backup.RemovedOnlyStopped` | services/nas_v2_backup.py:604-609 | in every log each removal of an artifact directly follows a successful stop of its unit |
| `Backup.Host.DrainDumps` | services/nas_v2_backup.py:604-615 | at every crash point each unit that may be writing is listed; without failures every unit was stopped and every artifact removed, newest first, and the state file says so |
| `Backup.Host.StageDump` | services/nas_v2_backup.py:395-481 | the unit is listed in the state file before it can run; success means it was restarted and its artifact found to hold data |
| `Backup.Host.StageSnapshot` | services/nas_v2_backup.py:575-583 | a fresh snapshot is listed in the state file before it is created |
| `Backup.Host.StageDataset` | services/nas_v2_backup.py:558-587 | a dataset is accepted iff it is mounted at the resource's path, and has one snapshot however often it is named |
| `Backup.Host.Stage` | services/nas_v2_backup.py:533-587 | each resource gets its own source, one snapshot per dataset, every dump unit is restarted in order, and the write-ahead invariant holds wherever it stops; it fails only by one fault or an unusable resource |
| `Backup.Host.Compensate` | services/nas_v2_backup.py:592-623 | the failure path keeps the write-ahead invariant and never reports success; without a fault nothing is left: no snapshot, no unit, no state file, no path list, every artifact removed |
| `Backup.Host.Prepare` | services/nas_v2_backup.py:483-623 | a stale state file changes nothing; every outcome keeps the invariant; success lists the path of every direct resource, the artifact of every dump and the snapshot of every dataset at its path, and nothing else, with the state file naming the snapshots and dumps; a failure by at most one fault leaves nothing behind; without a fault it succeeds iff nothing is stale and every resource can be backed up |
| `Backup.Host.Cleanup` | services/nas_v2_backup.py:635-692 | every outcome keeps the invariant; a normal return leaves no snapshot, no unit, no state file and no path list, and removed the artifact of every listed dump; without a fault it returns normally |
| `Backup.Lifetime` | services/nas_v2_backup.py:483-692 | any sequence of preparations and cleanups with crashes anywhere keeps the invariant |
| `Journals.MarkMeans` | services/nas_operation_journal.py:115-217 | a voided or acknowledged mark stands for a void, and an acknowledgement after it, later than the completion |
| `Journals.LockLasts` | services/nas_operation_journal.py:88-91 | a demand for manual recovery lasts until an acknowledgement, a verified completion or a replacement |
| `Journals.JournalFile.Acknowledge` | services/nas_operation_journal.py:114-134 | only a journal awaiting recovery is acknowledged, and nothing but its status changes; without a fault exactly such a journal is |
| `Journals.JournalFile.CompleteVerified` | services/nas_operation_journal.py:136-171 | only the current step of a journal awaiting recovery is completed without running, under the replacement fingerprint |
| `Journals.JournalFile.Migrate` | services/nas_setup.py:1293-1304 | a journal passes to another fingerprint with all its records |
| `Journals.OperationJournal.Open` | services/nas_operation_journal.py:64-112 | an unfinished journal of this workflow and fingerprint resumes with its steps, one awaiting recovery or any other is refused untouched, a finished one is replaced; without a fault it opens iff it may |
| `Journals.OperationJournal.StartStep` | services/nas_operation_journal.py:185-192 | the new value, and that the file keeps saying complete of exactly the steps whose completion stands |
| `Journals.OperationJournal.CompleteStep` | services/nas_operation_journal.py:194-202 | success makes the completion durable; any outcome keeps the file coherent |
| `Journals.OperationJournal.FailStep` | services/nas_operation_journal.py:204-210 | a failed step gains no completion record, and a manual one locks the journal |
| `Journals.OperationJournal.VoidStep` | services/nas_operation_journal.py:204-210 | voiding a completion locks the journal behind manual recovery |
| `Journals.OperationJournal.Fail` | services/nas_operation_journal.py:212-216 | the steps are untouched, changes a failed save left in memory become durable, and a complete journal is withdrawn |
| `Journals.OperationJournal.CompleteAll` | services/nas_operation_journal.py:218-224 | success makes the whole journal durably complete |
| `Setup.LawfulExtend` | services/nas_setup.py:1203-1226 | a history stays lawful by one more event that is admissible after it |
| `Setup.StagesRunInOrder` | services/nas_setup.py:1203-1226 | in a lawful history an action runs only when every earlier stage has a standing completion record |
| `Setup.CompletionsAreEarned` | services/nas_setup.py:1203-1226 | in a lawful history every completion of a stage has a run of its action before it with no other completion in between, unless it is the final one over a published report |
| `Setup.CompletionIsFinal` | services/nas_setup.py:1465-1504 | no action runs after the report was published or the journal completed |
| `Setup.RerunNeedsAcknowledgement` | services/nas_setup.py:1203-1226 | in a lawful history a stage that had completed runs again only after its record was voided and then acknowledged |
| `Setup.TrapHolds` | services/nas_operation_journal.py:88-91 | after a failure that demands manual recovery no action runs before an acknowledgement or a verified completion |
| `Setup.Appliance.Perform` | services/nas_setup.py:1219-1225 | an action runs when it is called and may start only when it is admissible; one that raises is on record |
| `Setup.Appliance.RunStage` | services/nas_setup.py:1203-1226 | one stage, stopped anywhere, keeps the history lawful; it succeeds iff nothing failed; the action runs iff the stage is not complete, and a complete checked stage passes only when its postcondition was found to hold; a failed postcondition voids the record and an action that raised is recorded as failed or as awaiting recovery |
| `Setup.Appliance.Recheck` | services/nas_setup.py:1203-1218 | a complete stage is never run: its postcondition is evaluated iff it has one, and a false one voids the record |
| `Setup.Appliance.RecordEnd` | services/nas_setup.py:1219-1226 | an action that ended well is completed, one that raised is recorded with the status its stage demands |
| `Setup.Appliance.SettleStorage` | services/nas_setup.py:1246-1305 | settling verified storage adds at most its own completion, runs no action and does not complete the journal; without a fault a failed storage step is completed and a completed one passes to this run's fingerprint; a journal of another plan is refused untouched |
| `Setup.Appliance.Close` | services/nas_setup.py:1755-1758 | the journal completes only over a published report that was read back; it does without a fault, and a report that is not read back demands manual recovery |
| `Setup.Appliance.RunStages` | services/nas_setup.py:1507-1780 | success means no fault, the report and the journal both complete and every stage run or found complete and true; without a fault a confirmed plan succeeds on a fresh or resumable journal and on one whose storage step can be settled |
| `Setup.Appliance.FinishJournal` | services/nas_setup.py:1434-1462 | with the report published it runs nothing, and without a fault it ends with the journal complete iff the journal is absent, complete, pending, running or resuming; a failed or crashed attempt can be retried |
| `Setup.Appliance.FirstRun` | services/nas_setup.py:2212-2240 | once either authority says complete no run starts an action; success means every stage was run or found complete and true; without a fault a fresh, resumable or settled setup succeeds, and a retry of the published plan completes the journal iff it is not wedged, always when the final-state action did not raise and the report was read back; another plan is refused and changes nothing |
| `Setup.Appliance.AcknowledgeRecovery` | services/nas_setup.py:2004-2012 | acknowledging keeps the history lawful, succeeds without a fault iff recovery is demanded, and leaves a wedged journal wedged |
| `Setup.Appliance.Obey` | services/nas_setup.py:1434-1462 | no sequence of runs and acknowledgements completes a journal that is wedged |
| `Setup.Lifetime` | services/nas_setup.py:1203-1504 | every sequence of runs and acknowledgements with crashes anywhere has a lawful history, and once the report is published undisturbed the journal is running or complete, so that the next run without a fault finishes it |
| `Setup.WedgedForever` | services/nas_setup.py:1449-1453 | a published report whose action raised all the same, and every continuation leaves the journal unfinished |
| `Bundle.WrittenElsewhere` | services/nas_v2_apply.py:257-259 | writing entries leaves every other path alone |
| `Bundle.WrittenAt` | services/nas_v2_apply.py:257-259 | with distinct paths every entry ends as its target |
| `Bundle.ChangedSuffice` | services/nas_v2_apply.py:229-236 | leaving out entries the disk already matches does not change the result |
| `Bundle.ReportIsDiff` | services/nas_v2_apply.py:221-284 | the returned set is exactly the paths whose content, mode or existence changed |
| `Bundle.FileSystem.Rollback` | services/nas_v2_apply.py:268-278 | undoing the mutated paths, newest first, restores every file, leaves no temporary and syncs every directory; it succeeds iff nothing fails |
| `Bundle.FileSystem.SelectChanged` | services/nas_v2_apply.py:229-236 | it keeps exactly the entries whose bytes or mode differ on disk |
| `Bundle.FileSystem.PrepareAll` | services/nas_v2_apply.py:241-254 | every changed entry has its own temporary, and the captured contents are the present ones |
| `Bundle.FileSystem.RenameAll` | services/nas_v2_apply.py:257-259 | wherever it stops only the paths listed as mutated differ |
| `Bundle.FileSystem.RemoveAll` | services/nas_v2_apply.py:260-267 | wherever it stops only the paths listed as mutated differ; when done the removals are gone and every changed directory is synced |
| `Bundle.FileSystem.ReplaceBundle` | services/nas_v2_apply.py:221-284 | a compensated failure leaves every file and temporary as it was; success with distinct paths writes the entries, removes the rest, syncs their directories and returns exactly what changed; it succeeds iff nothing fails, and a single failure is compensated unless only a temporary could not be removed |
| `Apply.ApplyProjection` | services/nas_v2_apply.py:527-573 | one apply: every output and unit in place, the plan on disk with its mode naming exactly the reported paths, stale files gone, everything else untouched; or a rollback to a tree one of the bundles left |
| `Apply.BundledAt` | services/nas_v2_apply.py:560-569 | what one bundle leaves at each path |
| `Apply.ResultIsProjected` | services/nas_v2_apply.py:527-573 | what an apply leaves and reports, path by path |
| `Apply.ReportIsExact` | services/nas_v2_apply.py:560-572 | a path other than the plan is reported iff its content, mode or existence changed |
| `Apply.FirstApplySettles` | services/nas_v2_apply.py:527-573 | after one apply every output is in place and every candidate file on disk is one of the units |
| `Apply.SettledApply` | services/nas_v2_apply.py:560-572 | how the plan moves from a settled tree: it lists itself, then nothing, then rests |
| `Apply.ThreeAppliesSuffice` | services/nas_v2_apply.py:527-573 | from any tree the fourth apply writes and reports nothing |
| `Apply.RestIsStable` | services/nas_v2_apply.py:527-573 | nor does any later one |
| `Apply.OverlapNeverRests` | services/nas_v2_apply.py:182-218 | if an output or the plan looks like a stale unit no tree is at rest |
| `Apply.FixedPointIffSeparate` | services/nas_v2_apply.py:182-218 | three applies reach a fixed point iff no output or plan path is a stale candidate |
| `Archive.RemovableIsTracked` | services/nas_state.py:985-1000 | what can be removed path by path from the end is exactly what was added, each path once |
| `Archive.Extractor.CheckHeader` | services/nas_state.py:914-928 | a header passes iff it is within the limits, safely and newly named, and a file or directory; the declared total grows by its size |
| `Archive.Extractor.CopyBounded` | services/nas_state.py:938-956 | the byte limit holds whatever the body delivers, also when a write fails half way; success means the file holds exactly the body; without a fault it succeeds iff the body is whole and of the declared size |
| `Archive.Extractor.PrepareParent` | services/nas_state.py:972-983 | existing paths are untouched and every directory made is recorded, parents first, unless the chain was made half; without a fault it succeeds iff no file is in the way |
| `Archive.Extractor.ExtractDirectory` | services/nas_state.py:1016-1030 | the directory ends with the member's mode, and at most that mode changes on what exists; without a fault it succeeds iff the path exists or no file is in the way |
| `Archive.Extractor.ExtractRegular` | services/nas_state.py:1031-1069 | no existing file is opened; success means the member is on disk with its content and mode; without a fault it succeeds iff nothing is at its path, no file is above it and its body is whole |
| `Archive.FitsIff` | services/nas_state.py:1016-1047 | whether a member finds its place depends only on what was there and the members before it |
| `Archive.Extractor.Undo` | services/nas_state.py:985-1000 | everything that was there keeps content and mode; with every removal successful exactly the earlier paths remain, and after a half-made chain only directories besides |
| `Archive.Extractor.ExtractItem` | services/nas_state.py:1008-1069 | one more member extracted keeps the earlier ones as they were; without a fault it succeeds iff the stream is extractable up to it |
| `Archive.Extractor.ExtractBundle` | services/nas_state.py:959-1076 | any stream: at most the byte limit is written, earlier files keep their content, and modes change only as directory members say; accepted: every member is on disk with its mode, nothing else is new, no path was created twice; rejected: exactly the earlier paths remain; after a single failing call no file of the archive is left; without a fault it is accepted iff its headers are acceptable, its bodies whole and no member is in another's way |
| `Restore.RollbackIsExactIff` | services/nas_state.py:1399-1416 | from any intermediate state the rollback bundle restores everything iff every required authority that was missing is still missing |
| `Restore.AcceptedMeans` | services/nas_state.py:1667-1712 | a bundle is accepted iff it fits the registry, the host is confirmed and is the bundle's, nothing is missing unless a partial restore is allowed, and nothing sensitive is included unless asked for |
| `Restore.System.StopActiveUnits` | services/nas_state.py:1523-1544 | only units of the snapshot are touched; success leaves none of them active; if one stop fails and nothing else, every unit runs again |
| `Restore.System.RestoreUnitState` | services/nas_state.py:1547-1553 | success restores the activity of every tracked unit, and nothing is touched when it already agrees |
| `Restore.System.ReapplyConsumers` | services/nas_state.py:1583-1608 | success reloads the service manager and the active consumers in order and leaves every tracked unit with its recorded activity |
| `Restore.System.Preflight` | services/nas_state.py:1381-1396 | passing without the absence flag means no authority to be removed exists |
| `Restore.System.Apply` | services/nas_state.py:1399-1416 | success leaves every authority with an absent entry gone and skips missing and omitted ones; with faithful replacements a captured one holds its payload |
| `Restore.System.Verify` | services/nas_state.py:1456-1500 | success means every captured authority equals its payload |
| `Restore.System.Drifted` | services/nas_state.py:1714-1751 | no drift means that applying the bundle would change nothing and that every database was there to compare |
| `Restore.System.ExportRollback` | services/nas_state.py:786-844 | the rollback bundle records every authority as it is |
| `Restore.System.Capture` | services/nas_state.py:1753-1761 | no authority changes; success means the rollback bundle is noted, no absence conflicts, every tracked unit is stopped and the journal says quiesced |
| `Restore.System.Commit` | services/nas_state.py:1762-1773 | a committed journal implies the bundle is applied exactly, even if a replacement silently went wrong; success ignores no fault and notes every phase |
| `Restore.System.Abandon` | services/nas_state.py:1775-1789 | without a fault the units are as before and the journal says failed before apply; if the units cannot be put back it demands manual recovery |
| `Restore.System.ApplyRollback` | services/nas_state.py:1791-1810 | it succeeds iff nothing fails, and then the rollback bundle is applied, tracked units are as before and the journal says rolled back |
| `Restore.System.RollBack` | services/nas_state.py:1793-1817 | without a fault the rollback bundle is applied, tracked units are as before and the journal says rolled back; a single failure after the rollback is noted ends in manual recovery |
| `Restore.System.Attempt` | services/nas_state.py:1753-1817 | however the attempt ends, the journal's status is true of authorities and units; if nothing fails after a rollback is noted the attempt ends rolled back, and a single failure is always compensated |
| `Restore.System.Run` | services/nas_state.py:1667-1819 | every run, crashed or not: `committed` means every authority is as the bundle says, `failed`, `failed-before-apply` and `skipped-unchanged` mean nothing changed, `failed-rolled-back` means tracked units are as before and, if replacements that report success are faithful, so is every authority captured or recorded absent; nothing changes for a bundle whose host, completeness or sensitivity was not confirmed or that conflicts on absence; if nothing fails after a rollback is noted the run ends rolled back, and after exactly one failure in manual recovery; without a fault an accepted bundle is restored through every phase, or skipped if it changes nothing |
| `Release.AncestorTransitive` | scripts/prepare_release.py:68-72 | ancestry composes |
| `Release.AncestorAntisymmetric` | scripts/prepare_release.py:68-72 | distinct commits are not ancestors of each other |
| `Release.WalkReachesAncestor` | scripts/prepare_release.py:68-72 | whatever a walk along parents reaches is an ancestor |
| `Release.AncestorIsReached` | scripts/prepare_release.py:68-72 | every ancestor is reached by a walk along parents |
| `Release.AncestorAfterGrowth` | scripts/prepare_release.py:68-72 | new commits do not change the ancestry of old ones |
| `Release.Sort` | scripts/prepare_release.py:168-168 | the result ascends by patch and has the same tags |
| `Sorting.SortOrdered` | scripts/prepare_release.py:168-168 | a stable sort is ordered by every transitive order its comparison decides; the route and selector sorts use it too |
| `Release.ContiguousIffNumbered` | scripts/prepare_release.py:168-177 | sorted patches are contiguous iff every number up to their count is taken |
| `Release.ReleaseTagForSource` | scripts/prepare_release.py:180-192 | it finds the highest patch released from the source, iff there is one |
| `Release.PublishedReleases` | scripts/prepare_release.py:147-178 | it returns the epoch's releases behind the source in patch order, iff they are numbered without a gap |
| `Release.NextVersion` | scripts/prepare_release.py:195-221 | exactly when it returns; an unreleased source gets a patch above every release of the epoch; a released one its own |
| `Release.ChainPublish` | scripts/prepare_release.py:195-221 | publishing keeps the releases a strict ancestry chain numbered without a gap |
| `Release.OneVersionPerSource` | scripts/prepare_release.py:180-192 | in such a chain patches order the sources exactly as strict ancestry does |
| `Release.Repository.Publish` | scripts/prepare_release.py:195-221 | a publication succeeds iff the source is released or follows every release; older and divergent sources change nothing |
| `Release.Repository.Lifetime` | scripts/prepare_release.py:147-221 | over every run of commits, tags and publications a source always gets the same version, and versions and ancestry agree |
| `Routes.CleanMatches` | services/nas_v2_caddy.py:74-89 | a path with at most one trailing slash matches exactly the requests that extend it segment by segment |
| `Routes.PatternsExactIff` | services/nas_v2_caddy.py:81-89 | the patterns of a path are exact iff it ends in at most one slash |
| `Routes.RenderedPaths` | services/nas_v2_caddy.py:74-82 | a path is rendered iff it starts with a slash, holds no control character, brace or star, and is neither the outpost prefix nor below it, case folded |
| `Routes.OutpostFallsToRoot` | services/nas_v2_caddy.py:77-82 | no rendered route other than the root's covers a request below the outpost prefix, in any case variant |
| `Routes.BeforeIsNotAfter` | services/nas_v2_caddy.py:292-303 | the sort key orders a site by segments and then length |
| `Routes.BeforeMeans` | services/nas_v2_caddy.py:292-303 | the sort key in full: host, more segments, longer path, then path, service and route by text |
| `Text.LessMeans` | services/nas_v2_caddy.py:292-303 | the string order of the sort keys: a proper prefix comes first, otherwise the smaller character where they first differ |
| `Routes.SortIsOrdered` | services/nas_v2_caddy.py:305-306 | the sorted handlers are ordered by it |
| `Routes.GroupSites` | services/nas_v2_caddy.py:321-328 | each case-merged site block holds exactly its handlers in order, under the spelling of the first |
| `Routes.DeeperFirst` | services/nas_v2_caddy.py:292-303 | a path below another one of the site comes before it |
| `Routes.FirstMatchInSite` | services/nas_v2_caddy.py:348-351 | in an ordered site the first match is the longest segment-wise prefix |
| `Routes.LongestPrefixWins` | services/nas_v2_caddy.py:292-355 | for all routes of distinct paths and every request, the first matching handler emitted for a site is the route with the longest segment-wise prefix, and none matches only if no route covers the request |
| `GroupHeader.ManySpaces` | services/nas_v2_caddy.py:131-131 | the repeated space class matches exactly runs of white space |
| `GroupHeader.LiteralMatches` | services/nas_v2_caddy.py:130-131 | an escaped name matches exactly itself |
| `GroupHeader.Delimiters` | services/nas_v2_caddy.py:126-131 | which characters separate names and which count as white space |
| `GroupHeader.FoundMeans` | services/nas_v2_caddy.py:126-131 | the search succeeds iff one of the two names occurs delimited |
| `GroupHeader.AcceptsIffListed` | services/nas_v2_caddy.py:126-141 | the expression accepts a header iff one of its separated names, trimmed, is the capability or the admin group and no white space at the ends of the header touches it |
| `GroupHeader.AcceptsMembers` | services/nas_v2_caddy.py:126-141 | acceptance implies membership, and on headers without outer white space membership implies acceptance |
| `Accelerator.DevicePathStable` | services/nas_v2_accelerator.py:59-70 | normalizing a device path twice changes nothing |
| `Accelerator.CleanPaths` | services/nas_v2_accelerator.py:59-70 | a path of clean components is accepted as it is iff it lies below the device directory and does not go up |
| `Accelerator.NoiseIsIgnored` | services/nas_v2_accelerator.py:59-70 | empty and "." components change nothing |
| `Accelerator.ParseNormal` | services/nas_v2_accelerator.py:47-74 | every accepted selector is in normal form |
| `Accelerator.ParseMeans` | services/nas_v2_accelerator.py:47-74 | what each spelling of a selector stands for, and which are refused |
| `Accelerator.RuntimeForms` | services/nas_v2_accelerator.py:77-84 | the forms each runtime takes, CDI names first where it takes them |
| `Accelerator.CdiNames` | services/nas_v2_accelerator.py:17-17 | two words around a slash, an equals sign and a word that may hold colons make a CDI name |
| `Accelerator.CdiMeans` | services/nas_v2_accelerator.py:17-17 | every accepted CDI name is of that form |
| `Accelerator.OneCardOneIdentity` | services/nas_v2_accelerator.py:115-136 | a card named by its device nodes, by CDI index or by a mapped UUID has the same identity |
| `Accelerator.IdentityMeans` | services/nas_v2_accelerator.py:115-136 | a selector has a card's identity only if it names that card; any other is its own identity |
| `Accelerator.ByUuidMeans` | services/nas_v2_accelerator.py:100-112 | a name by UUID is the NVIDIA provider, the UUID prefix and hexadecimal digits or hyphens |
| `Accelerator.NamesByUuid` | services/nas_v2_accelerator.py:100-112 | every such name is one |
| `Accelerator.UnmappedMeans` | services/nas_v2_accelerator.py:97-112 | the inventory is unusable iff it has a name by UUID that the minor map does not hold |
| `Accelerator.OnePerCardBest` | services/nas_v2_accelerator.py:155-166 | every card among the candidates is kept, in the form the runtime prefers |
| `Accelerator.SelectorsAreCards` | services/nas_v2_accelerator.py:149-166 | the kept selectors stand for the vendor's physical cards, one each |
| `Accelerator.SelectorsInOrder` | services/nas_v2_accelerator.py:155-166 | the kept selectors are in order of preference and text |
| `Accelerator.CdiFirst` | services/nas_v2_accelerator.py:155-155 | CDI names come before devices, and selectors of one form in the order of their text |
| `Accelerator.CardKeptAsCdi` | services/nas_v2_accelerator.py:156-166 | a card that has a usable CDI name is kept by one |
| `Accelerator.JoinedMeans` | services/nas_v2_accelerator.py:155-155 | the text of several devices is their paths with a NUL character between |
| `Accelerator.ParseUsable` | services/nas_v2_accelerator.py:149-154 | the parsing loop yields the usable selectors without repetition |
| `Accelerator.KeepOnePerCard` | services/nas_v2_accelerator.py:157-166 | the loop over `seen` keeps the first selector of each card |
| `Accelerator.SelectVendor` | services/nas_v2_accelerator.py:139-172 | it chooses the first vendor with anything usable and rejects an unmapped UUID name |
| `Accelerator.VendorOrder` | services/nas_v2_accelerator.py:139-148 | a request of any vendor is served by NVIDIA, else AMD, else Intel; a named vendor stands alone |
| `Accelerator.OffersMeans` | services/nas_v2_accelerator.py:149-154 | a vendor offers something iff one of its selectors parses to a form the runtime takes |
| `Accelerator.GrantIsExact` | services/nas_v2_accelerator.py:209-228 | a shared request for n cards gets the first n selectors, of n different cards, with its vendor and target, iff that vendor has n; otherwise it is dropped or rejected |
| `Accelerator.AllIsGranted` | services/nas_v2_accelerator.py:209-228 | a request for all cards gets the vendor's selector for all if the runtime takes it, every card's selector otherwise |
| `Accelerator.NonPositiveIsGranted` | services/nas_v2_accelerator.py:209-228 | a request for no card or fewer is granted, also without a vendor, less as many selectors from the end |
| `Accelerator.ExplicitIsGranted` | services/nas_v2_accelerator.py:194-208 | an explicit device is granted alone as named iff one is asked for and the runtime takes its form |
| `Accelerator.OutrightResults` | services/nas_v2_accelerator.py:184-192 | a request that is no GPU is rejected, a virtual machine keeps its requests, passthrough elsewhere is rejected |
| `Accelerator.ResolveService` | services/nas_v2_accelerator.py:176-229 | the loop resolves every request in order or rejects the service |
| `Accelerator.WrittenBack` | services/nas_v2_accelerator.py:251-263 | every device of every granted selector becomes one required shared request with its vendor and target, a copied request is kept iff it asks for passthrough, and nothing else is written |
| `Accelerator.WrittenInOrder` | services/nas_v2_accelerator.py:257-263 | devices are written in the order of the selectors |
| `Accelerator.ResolvedSettles` | services/nas_v2_accelerator.py:251-263 | each request written back resolves to itself against any inventory |
| `Accelerator.ResolutionIsIdempotent` | services/nas_v2_accelerator.py:233-266 | resolving a resolved list against any inventory succeeds and changes nothing |
| `Accelerator.ResolveEffective` | services/nas_v2_accelerator.py:233-266 | a document is resolved iff each of its services is, and each gets its written-back list |
| `Accelerator.DocumentIsSettled` | services/nas_v2_accelerator.py:233-266 | a resolved document resolves again, against any inventory, to the same lists |

## Left out

- Subprocess, HTTP, systemd and ZFS plumbing: they appear only as effects that succeed, fail or are uncertain.
- Encodings, digests and signatures: JSON documents, generation digests, fingerprints, HMACs and content digests are
  treated as injective, and atomic file replacement as one step. The directory digest of a restore does not delimit
  file contents; two different trees that hash alike are not modelled.
- Outside edits: nobody else changes Syncthing objects, identity-provider users, authorities, generated files or the
  extraction destination during a run or between the runs of one sequence. The check that a completed account step
  still has its user therefore cannot fail in the model.
- Guard timers: systemd's timer is any number of `fired` processes spawned at any time; its unit files and the
  inspection of a fired service appear as the environment's answers.
- Guard status command, lock status report, journal status and cancellation of a failed account plan: reports and
  single-branch commands over the modelled records.
- Operation lock waiting: the blocking poll of a busy lock is any number of attempts.
- Backup inventory compilation, native-dump unit resolution and restore verification: checks of single values.
- Backup state entries that are malformed: the state file holds only what the modelled operations wrote.
- Bundle crashes: `_replace_bundle` compensates exceptions only, so a death inside it is not modelled; a failed
  rename, unlink or sync has no effect of its own.
- Unpublished generations and desired-state history in `apply`: a plain write of the same bundle into a fresh directory.
- Extraction privileges: extraction runs privileged. Without root an archive can clear the mode of a directory it made
  and so defeat removals below it; in the model such a removal fails and the outcome is `Strayed`.
- Archive member names: `safe_member_name` is a component list or a rejection; symbolic links below the destination do
  not occur because only directories and regular files are extracted.
- Restore.System.Apply: says nothing of the content of a captured authority when replacements may silently go wrong;
  the commit relies on verification for it.
- Restore.System.RollBack: promises prior contents only if replacements that report success are faithful, and not for
  authorities recorded as `missing-required`, which a rollback skips.
- Restore.System.Run: promises the contents behind `failed-rolled-back` only if replacements that report success are
  faithful, because the source does not verify a rollback.
- Restore authorities with overlapping paths, and units whose stop or start changes an authority or another unit.
- First-run aftermath: starting the protected services once the locks are released, and the status file for the
  management interface.
- Setup stages: what each stage's action does; a stage is an action that may fail anywhere and a postcondition the
  environment answers.
- Release tags are never deleted, and the epoch's anchor is one commit throughout a run of publications.
- Version stamping, bootstrap-password rotation and the release metadata files of `prepare_release.py`.
- Caddy directives, request headers and proxy targets; the outpost handler that precedes the routes of an identity
  site; percent-decoding and slash merging of request paths.
- Case folding: the server folds character by character and leaves the slash alone.
- Accelerator quantities that are booleans, and device paths or joined sort keys with a NUL character.
- `_ensure_proxy_application`, the cockpit, doctor, control and command-line surfaces, the entry and bootstrap modules,
  and the continuous-integration scripts.
