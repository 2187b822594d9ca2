# Sync and credential layer: verified model

This project models the stateful sync and credential layer of the desktop client, plus two renderer caches, and
proves what each part keeps over every run. One module stands for one component of the program; a class stands for
state that the program updates in place, and its methods follow the program's branches.

How the model treats the outside world:

- An `await` on something that other code can interleave with is a step in which the shared state is replaced by any
  other state. Passphrase operations write what they and others did into a log, and contracts say where in that log
  an operation takes effect.
- Hosts answer arbitrarily. Their answers are recorded (the log, the list of host calls) or are inputs, so that a
  contract can say exactly how a result depends on them.
- A crash is a point of a course of events, given as input, at which a call stops; everything persisted before it
  stays, nothing after it happens.
- Time is a number passed in; encryption, the planner of the migration, the pairwise merge of two chat sessions and
  the comparison of payloads are arbitrary functions or answers.

| module | component |
|---|---|
| `KeyPaths` | spellings of one key file |
| `PassphraseStore`, `PassphraseImport`, `MutationQueue`, `PassphraseRuns` | remembered key passphrases: load, save, import, the queue of writers, and whole runs of a window |
| `SidecarBridge` | plugin sidecars between cloud sync and the plugin host |
| `ModelCache` | the SDK model cache |
| `Retention`, `VaultApply`, `BackupLocks`, `RestoreBarrier` | retention of backups, protected apply, backups and clearing across windows, the restore barrier |
| `SecretsConnect` | storing plugin secrets, then connecting |
| `AiSessions`, `AiBindings` | chat sessions and provider bindings after a sync |
| `ConvergentMigration` | migration to convergent sync, and the restore that relies on it |
| `SkillsStatus` | the user skills status cache |

## What turned out differently from the documentation

- Tilde and absolute spellings of a key are meant to undo each other. For an absolute POSIX home this holds exactly
  when the home contains no backslash and does not end in two slashes (`KeyPaths.AliasesSymmetricIffCleanHome`);
  every other such home loses `~/x` (`KeyPaths.UncleanHomeLosesTilde`). On a clean home "finds" is an equivalence:
  two spellings find each other if and only if they stand for the same absolute path (`KeyPaths.FindsIffSamePath`).
- Under a Windows home (on a drive, or beginning with two backslashes) every spelling of `~/s` finds it back if and
  only if `s` has no backslash and the home neither ends in two slashes nor is the root of a drive with a capital
  letter (`KeyPaths.TildeFoundBackIff`; `KeyPaths.BackslashIsLost` is an input that fails). Under a network home that
  begins with other slashes the condition is that the home does not end in two slashes and does not turn the slashes
  of `s` into backslashes (`KeyPaths.SlashedTildeFoundBackIff`). The other way round, a Windows path is found from
  each of its spellings (`KeyPaths.WindowsAliasesFindBack`). Two Windows paths find each other if and only if they
  agree but for case and separators (`KeyPaths.WindowsFindsIff`), and between a Windows path and `~/s` it takes that
  the path is the file that `~/s` stands for (`KeyPaths.TildeFindsIff`, `KeyPaths.WindowsFindsTildeIff`).
- Storing secrets and connecting is meant to be all or nothing. After a failure the secrets are the initial ones if
  and only if every key that was put comes back: a new key, if it can be deleted; a known key, if the caller passes
  `restoreSecrets`, restoring it works, and what the host holds in its stash is the very secret that was overwritten.
  The last part fails when the old secret could not be decrypted for the stash, and when an older stash was left
  behind (`SecretsConnect.AllOrNothing`, stated of the method by `StoreThenConnect`). The second case is reached by a
  failed connect whose restore fails as well, followed by a retry (`SecretsConnect.RetryAfterFailedRestore`).
  Distinct keys are not needed.
- The documentation of the protected apply promises a recovery point for an interrupted apply. Retention can take it
  away: with a maximum count of one, the next apply's backup removes the one that the sentinel still names
  (`BackupLocks.NamedBackupMayBeTrimmed`). A backup that recovery relies on survives a run if and only if each backup
  or trim meanwhile keeps more records than were made since (`BackupLocks.ProtectiveBackupSurvivesIff`, for files
  that can be unlinked).
- After a settings apply every binding names a stored provider if and only if storage kept the pruned bindings, or
  none had to be pruned (`AiBindings.GoodUnlessDropped`): a write that storage rejects is dropped silently, and then
  an orphan binding stays (`AiBindings.OrphanStays`).
- Active chat sessions are meant to stay intact while a download is applied. The apply saves the merged list, awaits
  the cleanup of the reset sessions and only then publishes the list it had merged before. After it the streaming
  sessions are as the await left them if and only if nobody changed them during the await
  (`AiSessions.SessionStore.Apply`); otherwise the new messages are gone from memory, and so is every session created
  meanwhile (`AiSessions.LosesWhatOthersWrite` is such an input).
- The restore barrier is meant to survive one missed heartbeat. It does for every run if and only if the hold is
  longer than two seconds (`RestoreBarrier.HoldThreshold`); the interval is never shorter than one second.
- The sentinel of a protected apply names a backup of the snapshot if and only if the snapshot is meaningful and the
  backup host answered with one: the code goes on without a backup when the host resolves without one
  (`VaultApply.VaultStore.ApplyProtected`, where the sentinel is `Record(now, IdOf(backup))`).
- Saving and importing report success even when storage rejects the write for lack of space; the contracts carry
  this case as `full`, in which the store stays as it was.
- Clearing is safe even if the clearing window crashes while the main process still removes files: the main process
  makes a later restore's backup only after that removal (`BackupLocks.ClearNeverTakesARecoveryBackup`).

## Model

| member | source | states |
|---|---|---|
| `KeyPaths.AliasesSymmetricIffCleanHome` | application/defaultKeyPassphrases.ts:19-44 | for an absolute POSIX home, "p finds q" and "q finds p" agree on all paths that do not look like Windows paths, if and only if the home has no backslash and does not end in two slashes |
| `KeyPaths.FindsIffSamePath` | application/defaultKeyPassphrases.ts:19-44 | under a clean POSIX home two spellings find each other if and only if the home directory put for the tilde makes them the same path |
| `KeyPaths.AliasClassesAgree` | application/defaultKeyPassphrases.ts:19-44 | under a clean POSIX home, two paths one of which finds the other are looked up under the very same set of keys |
| `KeyPaths.AliasesTransitive` | application/defaultKeyPassphrases.ts:19-44 | under a clean POSIX home "finds" is transitive, so with symmetry it is an equivalence |
| `KeyPaths.UncleanHomeLosesTilde` | application/defaultKeyPassphrases.ts:34-38 | every other POSIX home has a spelling of `~/x` that `~/x` finds but that does not find `~/x` back |
| `KeyPaths.WindowsAliasesFindBack` | application/defaultKeyPassphrases.ts:8-44 | a Windows path, on a drive or on the network, in any case and with any separators, is found from each of its aliases under every home that does not begin with a tilde |
| `KeyPaths.SameKeyIff` | application/defaultKeyPassphrases.ts:8-13 | two different paths have one key if and only if they begin like a Windows path and agree character by character but for the case of letters and the kind of slash |
| `KeyPaths.WindowsFindsIff` | application/defaultKeyPassphrases.ts:8-44 | under any home, or none, two Windows paths find each other if and only if they agree but for case and slashes, so no lookup of one Windows file meets another |
| `KeyPaths.TildeFindsIff` | application/defaultKeyPassphrases.ts:19-44 | under a Windows home that does not end in two slashes, `~/s` finds a Windows path if and only if the path is the home followed by `s`, but for case and slashes |
| `KeyPaths.WindowsFindsTildeIff` | application/defaultKeyPassphrases.ts:19-44 | under such a home a Windows path finds `~/s` if and only if it is the home followed by `s`, the part `s` letter by letter, and the home is no capital drive root |
| `KeyPaths.WithoutHome` | application/defaultKeyPassphrases.ts:19-27 | without a home directory a path finds exactly the paths with its own key |
| `KeyPaths.TildeFoundBackIff` | application/defaultKeyPassphrases.ts:19-44 | under a Windows home, every spelling of `~/s` finds it back if and only if `s` has no backslash and the home neither ends in two slashes nor is a capital drive root |
| `KeyPaths.ForwardFormFinds` | application/defaultKeyPassphrases.ts:34-36 | when the form under the normalized home finds `~/s` back |
| `KeyPaths.NativeFormFinds` | application/defaultKeyPassphrases.ts:37-39 | when the form in the home's own spelling finds `~/s` back |
| `KeyPaths.BackslashIsLost` | application/defaultKeyPassphrases.ts:19-44 | an input that fails: under `C:\u` the path `C:/u/a\b` does not find `~/a\b` |
| `KeyPaths.SlashedTildeFoundBackIff` | application/defaultKeyPassphrases.ts:19-44 | under a home that looks like a network path but does not begin with two backslashes, every spelling of `~/s` finds it back if and only if the home does not end in two slashes and does not turn the slashes of `s` into backslashes |
| `KeyPaths.CleanAliases` | application/defaultKeyPassphrases.ts:19-44 | under a clean POSIX home a path has at most one other spelling, and which one |
| `PassphraseStore.PassphraseStorage.LoadOnce` | application/defaultKeyPassphrases.ts:98-157 | one attempt acts at once in the state of its final re-read, whatever others write at every await: a value is the decryption of an entry there, that entry alone is kept, and the exact spelling is passed over only if it was unreadable; null leaves no matching entry and each was unreadable; a retry or a failure writes nothing and has its cause in a changed entry or a rejected decryption |
| `PassphraseStore.PassphraseStorage.Load` | application/defaultKeyPassphrases.ts:159-165 | a load is its deciding attempt, preceded by at most two attempts that wrote nothing and each met a changed entry; it gives up exactly when the third one did too, and decides at the first attempt if nobody changed a matching entry |
| `PassphraseStore.PassphraseStorage.Take` | application/defaultKeyPassphrases.ts:118-134 | the readable end of an attempt: retry exactly when matching entries changed, else the other spellings go and the value is answered |
| `PassphraseStore.PassphraseStorage.GiveUp` | application/defaultKeyPassphrases.ts:138-155 | the unreadable end of an attempt: retry exactly when matching entries changed, else all of them go |
| `PassphraseStore.StoredPaths` | application/defaultKeyPassphrases.ts:105-112 | lists the matching paths, each once, the exact spelling first |
| `PassphraseStore.DropDuplicates` | application/defaultKeyPassphrases.ts:123-129 | removes the listed paths but one, and tells whether the store changed |
| `PassphraseStore.DropInvalid` | application/defaultKeyPassphrases.ts:144-150 | removes exactly the listed entries that still hold their unreadable value, and tells whether the store changed |
| `PassphraseStore.DropOthers` | application/defaultKeyPassphrases.ts:59-65 | removes exactly the other spellings |
| `PassphraseStore.PassphraseStorage.WriteUnlocked` | application/defaultKeyPassphrases.ts:54-68 | the store loses every other spelling and gains the new value in one step, every entry outside the alias keys stays as it was; or all stays when storage is full |
| `PassphraseStore.PassphraseStorage.Save` | application/defaultKeyPassphrases.ts:70-78 | a save takes effect at once after encryption, in whatever state others have left, or writes nothing when encryption fails; a stored save leaves every entry outside the alias keys, with its value |
| `PassphraseStore.OnlyTheSavedEntry` | application/defaultKeyPassphrases.ts:54-76 | after a save under one spelling, the only entry found under any alias is the saved one |
| `PassphraseStore.SavedIsLoaded` | application/defaultKeyPassphrases.ts:70-165 | round trip: a load under any alias that takes effect in the saved store returns the saved passphrase and leaves the store as it is, if decryption undoes encryption and the passphrase is non-empty and no placeholder |
| `PassphraseStore.OnlyEntryIsReturned` | application/defaultKeyPassphrases.ts:98-157 | a load that takes effect where a single entry matches returns what that entry decrypts to |
| `PassphraseStore.QuietLoadReturns` | application/defaultKeyPassphrases.ts:159-165 | a load that nobody disturbs, where a single entry matches, returns what it decrypts to |
| `PassphraseStore.SaveThenLoad` | application/defaultKeyPassphrases.ts:70-165 | round trip in one run: a stored save under `p`, any activity of others that leaves the matching entries alone, and a load under any alias of `p` returns the saved passphrase |
| `PassphraseStore.LoadOnlyRemoves` | application/defaultKeyPassphrases.ts:98-157 | a load adds and changes no entry, touches none outside the alias keys, and leaves just the returned one inside |
| `PassphraseStore.RetryMeansChange` | application/defaultKeyPassphrases.ts:80-96 | an attempt asks for a retry only if somebody else changed a matching entry since the load began |
| `PassphraseStore.RetriesMeanChange` | application/defaultKeyPassphrases.ts:159-165 | no attempt of a load asks for a retry if nobody touches the matching entries meanwhile |
| `MutationQueue.OneAtATime` | application/defaultKeyPassphrases.ts:46-52 | in every run of submissions, reactions and settlements: while a mutation runs, all earlier ones have settled and no later one has begun |
| `MutationQueue.RunKeepsOrder` | application/defaultKeyPassphrases.ts:46-52 | every run builds one chain of mutations and swallowed outcomes, settled up to where it has begun |
| `MutationQueue.NeverStuck` | application/defaultKeyPassphrases.ts:46-52 | while something waits and nothing runs, some reaction can fire, whatever was rejected before |
| `MutationQueue.Queue.Submit` | application/defaultKeyPassphrases.ts:48-52 | a submission is chained behind everything submitted before and begins nothing |
| `MutationQueue.Queue.React` | application/defaultKeyPassphrases.ts:49-50 | mutations begin in the order of their submission, each once |
| `PassphraseImport.VerifyOnce` | application/defaultKeyPassphrases.ts:178-225 | a verification read asks for a retry only if a matching entry changed under it; else its values are exactly the readable answers for exactly the matching entries, and it is unreadable exactly if one answer was |
| `PassphraseImport.Verify` | application/defaultKeyPassphrases.ts:227-235 | the result is that of one undisturbed read of the store as it now is, after at most two disturbed ones, or "unreadable" after exactly three disturbed ones |
| `PassphraseImport.AddKeys` | application/defaultKeyPassphrases.ts:257-270 | adds exactly the non-empty passphrases that keys referring to the file hold; one that is a placeholder makes the result unreadable |
| `PassphraseImport.ReadRemembered` | application/defaultKeyPassphrases.ts:245-273 | everything remembered for a file: the verified store together with the keys of the given list |
| `PassphraseImport.SortKeepsAll` | application/defaultKeyPassphrases.ts:474-488 | sorting the marks of the matching keys loses and invents none, whatever order the locale gives |
| `PassphraseImport.FingerprintIgnoresOrder` | application/defaultKeyPassphrases.ts:474-488 | if the ids of the marked keys are unique and the locale orders them strictly, two key lists have one fingerprint if and only if they mark the same keys, in whatever order |
| `PassphraseImport.MarkedExactly` | application/defaultKeyPassphrases.ts:474-488 | the fingerprint marks exactly the keys that refer to the file |
| `PassphraseImport.SameFingerprintAgrees` | application/defaultKeyPassphrases.ts:474-510 | if two key lists have one fingerprint, agreement of the first with a passphrase is agreement of the second |
| `PassphraseImport.CheckImport` | application/defaultKeyPassphrases.ts:502-506 | the refusals before the write, each with its cause, or the cipher of the passphrase |
| `PassphraseImport.CommitImport` | application/defaultKeyPassphrases.ts:511-526 | the final step writes the store, where every entry outside the alias keys stays, and gives the passphrase to exactly the keys that refer to the file, with nobody in between |
| `PassphraseImport.Import` | application/defaultKeyPassphrases.ts:490-528 | the answer follows from what was read, the encryption, the fingerprints and the key update; an import that writes rewrites store and keys in one step at the end, every other answer writes nothing |
| `PassphraseImport.RefusalsWriteNothing` | application/defaultKeyPassphrases.ts:503-510 | an import that refuses writes nothing |
| `PassphraseImport.EveryAnswerHasItsCause` | application/defaultKeyPassphrases.ts:498-527 | "unreadable" if and only if three reads were disturbed, an answer was not readable or a key holds a placeholder; else "conflict" if and only if another passphrase is remembered or the matching keys changed; else a failure if and only if encryption failed; else it writes |
| `PassphraseImport.SavedMeansAgreement` | application/defaultKeyPassphrases.ts:498-527 | an import that writes had every matching entry decrypted to this passphrase, and every matching key that holds one holds this one, also at the final step |
| `PassphraseImport.ImportLosesNothing` | application/defaultKeyPassphrases.ts:490-528 | if others only remove entries meanwhile, an import that writes replaces no different passphrase, leaves its own as the only one and keeps every entry outside the alias keys |
| `PassphraseRuns.OthersOnlyRemove` | application/defaultKeyPassphrases.ts:46-165 | while a mutation runs, no other mutation writes, and a load only removes entries |
| `PassphraseRuns.ShrinksMeanwhile` | application/defaultKeyPassphrases.ts:46-165 | in every run of a window, between two writes of a running mutation the store only shrinks |
| `PassphraseRuns.QueueShields` | application/defaultKeyPassphrases.ts:46-165 | what a running mutation sees others do in a run of the window only removes entries |
| `PassphraseRuns.QueuedImportLosesNothing` | application/defaultKeyPassphrases.ts:46-165 | in every run of a window, an import that writes replaces no different passphrase, leaves its own as the only one and keeps every entry outside the alias keys |
| `SidecarBridge.AcceptedInOrder` | application/pluginSyncSidecarBridge.ts:182-203 | in every run the host never accepts an older download after a newer one, nor one twice |
| `SidecarBridge.QueuedNeverLost` | application/pluginSyncSidecarBridge.ts:182-203 | in every run a queued download waits, or was accepted, or a newer one was queued or accepted after it |
| `SidecarBridge.WaitingIsLatestQueued` | application/pluginSyncSidecarBridge.ts:182-203 | what waits is the latest bundle queued, and nothing was accepted after it |
| `SidecarBridge.TicketsBounded` | application/pluginSyncSidecarBridge.ts:182-203 | nothing accepted or queued is newer than what waits |
| `SidecarBridge.FirstMergedIsFirst` | application/pluginSyncSidecarBridge.ts:264-277 | the sidecars of the first merged payload that carries any are the ones committed |
| `SidecarBridge.EmptyResetIsDeferred` | application/pluginSyncSidecarBridge.ts:218-279 | an empty collect over entries followed by a successful sync ends with empty last-known, followed by a failed one with last-known as it was |
| `SidecarBridge.CollectThenSync` | application/pluginSyncSidecarBridge.ts:168-279 | collect, then finish the sync: last-known stays while an empty collect over entries waits for its upload, ends empty if that succeeds, and stays if it fails |
| `SidecarBridge.Bridge.Collect` | application/pluginSyncSidecarBridge.ts:168-226 | keeps the pending slot equal to the waiting download; the waiting download is replayed first and the host is asked for its state exactly when nothing waits; last-known becomes what the host collected, but an empty collect leaves entries; a live-only collect returns only what the host returned in this call; a host error is reported exactly when the host failed |
| `SidecarBridge.Bridge.Apply` | application/pluginSyncSidecarBridge.ts:281-343 | an accepted download clears the slot and refreshes last-known, a refused one or an absent host queues it, a failing host changes nothing; a rejected write is reported unless the host had accepted and can be asked |
| `SidecarBridge.Bridge.RefreshLastKnown` | application/pluginSyncSidecarBridge.ts:310-343 | last-known becomes what the host holds now, else the merged answer, else the download |
| `SidecarBridge.Bridge.Keep` | application/pluginSyncSidecarBridge.ts:290-308 | a download that the host did not take is queued and kept for uploads, and a rejected write is reported |
| `SidecarBridge.Bridge.CommitLastKnown` | application/pluginSyncSidecarBridge.ts:232-240 | stores the given bundle, a missing one as empty |
| `SidecarBridge.Bridge.CommitAfterSuccessfulSync` | application/pluginSyncSidecarBridge.ts:247-279 | without a success nothing changes; else last-known becomes the sidecars of the first merged payload that carries any, else the uploaded ones, else stays |
| `ModelCache.PruneSound` | components/AIChatSidePanelHelpers.ts:212-224 | a prune leaves exactly the bound or all fresh entries, whichever is fewer, all fresh, in recency order |
| `ModelCache.PruneEvictsLeastRecent` | components/AIChatSidePanelHelpers.ts:219-223 | a fresh entry goes only when the bound is met, and it was touched before every entry that stays |
| `ModelCache.TouchInOrder` | components/AIChatSidePanelHelpers.ts:226-229 | touching a key makes it the most recent and keeps the others and their order |
| `ModelCache.JustSettled` | components/AIChatSidePanelHelpers.ts:276-278 | the entry a load has just stored survives the prune that follows exactly when it is still fresh |
| `ModelCache.LookupSound` | components/AIChatSidePanelHelpers.ts:210 | a lookup finds an entry exactly when one is stored under the key |
| `ModelCache.Cache.DropExpired` | components/AIChatSidePanelHelpers.ts:214-218 | deleting while iterating removes exactly the expired entries |
| `ModelCache.Cache.DropSurplus` | components/AIChatSidePanelHelpers.ts:219-223 | deleting the oldest key over and over leaves the newest entries |
| `ModelCache.Cache.Prune` | components/AIChatSidePanelHelpers.ts:212-224 | keeps the invariant and leaves at most the bound |
| `ModelCache.Cache.Touch` | components/AIChatSidePanelHelpers.ts:226-229 | keeps the recency order and never grows when the key is stored |
| `ModelCache.Cache.Read` | components/AIChatSidePanelHelpers.ts:232-237 | answers only a fresh entry, as a copy of what a load delivered at that time, and touches it; at most the bound remains |
| `ModelCache.Cache.Size` | components/AIChatSidePanelHelpers.ts:238-241 | counts the fresh entries within the bound |
| `ModelCache.Cache.Refresh` | components/AIChatSidePanelHelpers.ts:242-261 | a fresh hit without force is answered by a copy and starts no load; else the running load of the key is joined; only without one a load starts, so at most one runs per key |
| `ModelCache.Cache.KeepOlder` | components/AIChatSidePanelHelpers.ts:264-274 | an empty result hands back the captured catalog with its models; with a warning it carries that warning and the last-known-good source, and is stored with its old time, sharing its list |
| `ModelCache.Cache.StoreLoaded` | components/AIChatSidePanelHelpers.ts:276-278 | a load with models is stored under a list of its own as the newest entry, within the bound, and copied out |
| `ModelCache.Cache.Resolve` | components/AIChatSidePanelHelpers.ts:262-279 | a rejection leaves entries as they are; a load is degraded if and only if no model has an id and there is no current model, and hands back the captured catalog; any other is stored with its texts; only that adds a successful load |
| `ModelCache.Cache.Finish` | components/AIChatSidePanelHelpers.ts:280-284 | the settled load, rejected or not, frees its key |
| `ModelCache.CloneCatalog` | components/AIChatSidePanelHelpers.ts:110-118 | a copy has a list of its own with the same models, the same current model, and the non-empty texts |
| `ModelCache.NormalizeCatalog` | components/AIChatSidePanelHelpers.ts:120-130 | keeps the models with an id, the current model, only the known sources and non-empty texts, in a list of its own; nothing is left if and only if no model has an id and there is no current model |
| `ModelCache.WithIdsCounts` | components/AIChatSidePanelHelpers.ts:123-125 | a model with an id is in the normalized list as often as in the given one, and one without is not there |
| `ModelCache.WithIdsInOrder` | components/AIChatSidePanelHelpers.ts:123-125 | the normalized list is found in the given one at ascending positions |
| `ModelCache.AllWithIds` | components/AIChatSidePanelHelpers.ts:123-125 | the list stays as it is if and only if all its models have ids |
| `ModelCache.NoneWithIds` | components/AIChatSidePanelHelpers.ts:123-125 | the list becomes empty if and only if no model has an id |
| `VaultApply.VaultStore.ApplyProtected` | application/localVaultBackups.ts:438-478 | for every course, a crash at any point included: a vault that is neither as before nor finished is flagged, with the backup of the one before if the host answered one; a flag from before keeps its backup exactly if that outlives the new one; failing to prepare, snapshot or back up changes nothing; every end has its cause |
| `VaultApply.VaultStore.Protect` | application/localVaultBackups.ts:443-469 | the vault is not written before the backup of a meaningful vault was answered and the sentinel was written; which older backups are left |
| `VaultApply.VaultStore.CreateBackup` | application/localVaultBackups.ts:219-246 | a backup of the vault as it is, asked for exactly when the vault is meaningful; which older backups the call leaves |
| `VaultApply.NewBackup` | electron/bridges/vaultBackupBridge.cjs:552-557 | a new backup is there afterwards, and an older one exactly if fewer newer ones than are kept come before it |
| `VaultApply.VaultStore.RunWrites` | application/localVaultBackups.ts:475 | a cut sequence of writes leaves the vault after a prefix of them |
| `VaultApply.LastWriteDecides` | application/localVaultBackups.ts:475 | after the writes a key holds what the last write to it put there, or nothing if that removed it |
| `VaultApply.NotWrittenStays` | application/localVaultBackups.ts:475 | a key that is not written keeps what it held |
| `VaultApply.VaultStore.RunMarked` | application/localVaultBackups.ts:475-476 | the flag stays through any cut of the writes and ends when all are done, and only then the vault counts as whole |
| `Retention.PruneExactly` | electron/bridges/vaultBackupBridge.cjs:293-312 | a prune keeps exactly the newest records, at their places, and those that cannot be unlinked |
| `Retention.NewestStays` | electron/bridges/vaultBackupBridge.cjs:552-557 | a new record survives its own prune, and which older ones do |
| `VaultApply.VaultStore.Acknowledge` | application/localVaultBackups.ts:372-378 | clears the flag and takes the vault as it is |
| `BackupLocks.StepKeepsInv` | application/localVaultBackups.ts:98-106 | every step of any window or of the main process keeps the lock, order and record invariants |
| `BackupLocks.RunKeepsInv` | application/localVaultBackups.ts:98-106 | the invariants hold after every run of any number of windows, with crashes anywhere |
| `BackupLocks.ClearNeverTakesARecoveryBackup` | application/localVaultBackups.ts:98-106 | in every run clearing holds the lock alone, and when it removes files no sentinel names a backup and no restore was told of one, even if the clearing window is gone |
| `BackupLocks.ClearBeginsInQuiet` | application/localVaultBackups.ts:102-104 | a clear begins only while no window restores, no apply is marked and nobody waits for the main process |
| `BackupLocks.MarkEndsOnlyByItsApply` | application/localVaultBackups.ts:372-378 | in every run a mark ends only when an apply that holds the lock finishes or the user acknowledges it, and never while a clear holds the lock |
| `BackupLocks.MarkedBackupStays` | application/localVaultBackups.ts:98-106 | while a backup is protected no clear takes it; it survives a run if and only if each backup or trim meanwhile keeps more records than have become newer |
| `BackupLocks.ProtectiveBackupSurvivesIff` | electron/bridges/vaultBackupBridge.cjs:293-312 | the backup answered to an apply survives, while protected, if and only if each later backup or trim keeps more records than were made since |
| `BackupLocks.SurvivesRun` | electron/bridges/vaultBackupBridge.cjs:293-312 | without a clear, a record survives a run if and only if every prune has room for it |
| `BackupLocks.StepTakes` | electron/bridges/vaultBackupBridge.cjs:293-312 | one step takes a record away exactly if it clears, or finds at least as many newer records as it keeps |
| `BackupLocks.NamedBackupMayBeTrimmed` | electron/bridges/vaultBackupBridge.cjs:293-312 | a run after which the sentinel names a backup that retention took away |
| `BackupLocks.AnswerIsNewest` | electron/bridges/vaultBackupBridge.cjs:450-458 | the backup that a restore is told of is the newest |
| `BackupLocks.RestoreGoesThrough` | application/localVaultBackups.ts:283-293 | wherever all is idle a restore can take the lock, get its backup, mark, finish and release: nothing is marked then, the lock is free and the backup heads the list before retention |
| `BackupLocks.ClearGoesThrough` | application/localVaultBackups.ts:98-106 | wherever all is idle and nothing is marked a clear can run to its end, after which only the files that cannot be unlinked stay |
| `BackupLocks.TrimGoesThrough` | electron/bridges/vaultBackupBridge.cjs:372-374 | wherever the main process has nothing to do a trim can run, which leaves what retention keeps |
| `BackupLocks.ClearIsNeverShutOut` | application/localVaultBackups.ts:98-106 | from every state of a run there is a continuation after which clearing may begin, with no backup lost on the way |
| `RestoreBarrier.SteadyHolds` | application/localVaultBackups.ts:295-327 | with a hold above two seconds and no two consecutive missed heartbeats the deadline lies ahead at every moment |
| `RestoreBarrier.ShortHoldLapses` | application/localVaultBackups.ts:312-315 | with a shorter hold one missed heartbeat lets the deadline pass |
| `RestoreBarrier.HoldThreshold` | application/localVaultBackups.ts:312-315 | the barrier survives single missed heartbeats in every run if and only if the hold is above two seconds |
| `RestoreBarrier.MissesSurvived` | application/localVaultBackups.ts:312-315 | for every number `m`: the barrier survives up to `m` missed heartbeats in a row in every run if and only if the hold is longer than `m + 1` intervals |
| `RestoreBarrier.UsualHolds` | application/localVaultBackups.ts:257-274 | the default hold of a minute survives one miss in a row and no more; a hold of a hundred seconds, where the interval is capped at twenty, survives three |
| `RestoreBarrier.LastNotLater` | application/localVaultBackups.ts:296-315 | a deadline that was written is at most one hold after the heartbeat it stands at |
| `RestoreBarrier.Barrier.Run` | application/localVaultBackups.ts:295-327 | the deadline after each heartbeat, whatever is missed: the last one written, or the one from before; strictly ahead throughout if the hold is above two seconds and no two heartbeats in a row are missed; zero at the end if the closing write is kept, else the last one written, at most one hold after the last heartbeat |
| `SecretsConnect.AllOrNothing` | application/pluginSyncConnectWithSecrets.ts:84-106 | after a failure the secrets are the initial ones if and only if every key that was put comes back: a new one can be deleted, a known one is restored from a stash that holds that very secret |
| `SecretsConnect.RollbackAt` | application/pluginSyncConnectWithSecrets.ts:84-104 | what deleting the created keys and writing back the stash leaves of each key and its stash, repeated keys included |
| `SecretsConnect.NothingToRestore` | application/pluginSyncConnectWithSecrets.ts:85-94 | when every key was new, the secrets are the initial ones if and only if all can be deleted, with or without restoreSecrets |
| `SecretsConnect.EverythingPut` | application/pluginSyncConnectWithSecrets.ts:53-72 | after all puts the store is the initial one updated with the last value of every key |
| `SecretsConnect.OneMorePut` | electron/plugins/secretStore.cjs:82-121 | one put keeps the account of created, overwritten and stashed keys |
| `SecretsConnect.PutSecrets` | application/pluginSyncConnectWithSecrets.ts:53-72 | the loop stops at the first rejected put, with an exact account so far; the credential is the first secret's reference, or the existing one for an empty list |
| `SecretsConnect.Rollback` | application/pluginSyncConnectWithSecrets.ts:84-106 | deletes what was created, then restores what was overwritten, skipping the keys that fail; what that leaves of each key |
| `SecretsConnect.StoreThenConnect` | application/pluginSyncConnectWithSecrets.ts:46-107 | connects exactly if all puts and the connect succeed, with every secret stored and nothing left stashed for overwritten keys unless discarding is impossible or fails; else the secrets are the initial ones if and only if every key comes back, and what is left of each key and its stash |
| `SecretsConnect.RetryAfterFailedRestore` | application/pluginSyncConnectWithSecrets.ts:84-106 | a run to an older stash: after a failed connect whose restore fails, a retry in which only the connect fails ends with the secret from before the first attempt |
| `SecretsConnect.SecretHost.Put` | electron/plugins/secretStore.cjs:82-121 | a put over a known key stashes the old secret if it can be decrypted and none is stashed already; a rejected put changes nothing |
| `SecretsConnect.SecretHost.Restore` | electron/plugins/pluginBridge.cjs:1327-1345 | writes back exactly what is stashed for the keys, except for those that fail, and drops those stashes |
| `AiSessions.SessionStore.Apply` | application/syncPayload.ts:1284-1336 | merges over the sessions found after the stops: exactly the downloaded ids that do not stream and the local ones that do; the streaming ones as they were then; each other one is, but for its thread, the downloaded session as it is if there is no local one, else the pair merge of both; a device thread is kept exactly when the transcript did not change; exactly the changed sessions are reset. The save keeps that list, or what retention leaves of it without chat sync. Publishing it overwrites what others did while the reset sessions were cleaned up: the streaming sessions found then survive if and only if they had not changed |
| `AiSessions.LosesWhatOthersWrite` | application/syncPayload.ts:1328-1335 | a run in which a message to a streaming session and a session created meanwhile are lost |
| `AiSessions.SessionStore.Publish` | application/syncPayload.ts:1328-1334 | save, cleanup of the reset sessions, publish: the published list is the merged one, and the rest is what others left |
| `AiSessions.MergeDownloaded` | application/syncPayload.ts:1305-1327 | the list to store, the sessions to reset and those that are gone, from the sessions found after the stops |
| `AiSessions.Assemble` | application/syncPayload.ts:1313-1327 | the loop that decides threads and resets: the survivors in their order, then the preserved sessions in theirs |
| `AiSessions.MergeLists` | domain/syncMerge.ts:344-441 | one session per id of either side: a session found on one side only as it is, else the pair merge of the last local and the last incoming one |
| `AiSessions.FindLastIsLast` | domain/syncMerge.ts:351-354 | of several sessions with one id the last is taken |
| `AiSessions.StopsExactlyForChanges` | application/syncPayload.ts:1293-1304 | with one session per id, sessions are stopped beforehand if and only if the list to store resets or removes one |
| `AiSessions.CarriedOver` | application/syncPayload.ts:1309-1312 | restricting the merge to the downloaded ids does not change what is merged |
| `AiSessions.FindWithin` | application/syncPayload.ts:1311-1312 | the local session found for a downloaded id is the same within the restricted list |
| `AiBindings.MergeKeepsKeys` | application/syncPayload.ts:425-442 | each provider keeps its incoming API key and custom headers if given, else gets those of the last local provider of the same id, and else none |
| `AiBindings.LocalByIdIsLast` | application/syncPayload.ts:428-431 | the local provider of an id is the last one with it, if there is one |
| `AiBindings.ReconcileSettles` | application/syncPayload.ts:1023-1056 | after a reconcile every binding names a stored provider, a model goes exactly with its agent's binding, and a second reconcile changes nothing |
| `AiBindings.GoodUnlessDropped` | application/syncPayload.ts:1050-1056 | after a reconcile every binding is good if and only if storage kept the pruned bindings or they were good before |
| `AiBindings.OrphanStays` | application/syncPayload.ts:1050-1056 | settings that fail: an orphan binding stays when storage drops the pruned bindings, although its model goes |
| `AiBindings.SplitBindings` | application/syncPayload.ts:1034-1049 | the loop finds exactly the good bindings and the models to keep, and reports a change exactly if there is one |
| `AiBindings.AiSettings.Reconcile` | application/syncPayload.ts:1023-1056 | where storage keeps the writes, a binding stays if and only if it names a stored provider, and a model if and only if its agent has no binding or one that stays; all with their values |
| `AiBindings.ReconciledExactly` | application/syncPayload.ts:1023-1056 | the reconciled settings, binding by binding and model by model; all bindings are good afterwards if and only if storage kept the pruned ones or all were good before |
| `AiBindings.AiSettings.WritePayload` | application/syncPayload.ts:925-960 | providers become the incoming ones with the local keys that those do not bring, maps the incoming ones, where storage keeps the writes |
| `AiBindings.AiSettings.Apply` | application/syncPayload.ts:925-979 | what the payload's own writes leave, with merged API keys, and what the reconcile makes of the settings it finds after the await; the two are the same without a web search key |
| `ConvergentMigration.BaselinesExactly` | application/convergentSyncMigration.ts:88-150 | a baseline is recorded exactly for each reached provider: a v2 provider's own state, or the plan's canonical state for a v1 provider |
| `ConvergentMigration.TrustedIsCommon` | application/convergentSyncMigration.ts:58-64 | there is a trusted baseline if and only if every readable baseline agrees with the first one, and then it is that one |
| `ConvergentMigration.Prepare` | application/convergentSyncMigration.ts:66-158 | one pass over the answers yields exactly these baselines and the trusted one for the planner |
| `ConvergentMigration.PushSeeds` | application/convergentSyncMigration.ts:141-152 | every waiting v1 provider gets a baseline with the plan's state |
| `ConvergentMigration.SyncStore.SaveBaselines` | application/convergentSyncMigration.ts:194-196 | the baselines before the cut are saved, all of them if there is no cut |
| `ConvergentMigration.UpdatedExactly` | application/convergentSyncMigration.ts:194-196 | after the baselines are saved one by one, each provider has the last one given to it, and every other provider what it had |
| `ConvergentMigration.SyncStore.Initialize` | application/convergentSyncMigration.ts:160-205 | cut at any step, the flag is newly set only over an applied payload, every baseline and the replica; a blocked, locked or stale call changes nothing |
| `ConvergentMigration.SyncStore.PrepareRestore` | application/convergentSyncReplica.ts:19-46 | a restore never meets an initialized configuration without its replica |
| `ConvergentMigration.SyncStore.CommitRestore` | application/convergentSyncReplica.ts:45 | the commit is one save and keeps the configuration sound |
| `SkillsStatus.SkillsCache.Invalidate` | components/AIChatSidePanel.tsx:142-146 | a new version starts with no result and no request |
| `SkillsStatus.SkillsCache.Load` | components/AIChatSidePanel.tsx:152-190 | answers a result of the current version if and only if one is cached and younger than a minute, else shares the version's one request, starting it exactly if there is none; without a bridge it caches and answers null |
| `SkillsStatus.SkillsCache.Deliver` | components/AIChatSidePanel.tsx:171-180 | a response requested before an invalidation yields undefined and never enters the cache; any other is cached under its version |
| `SkillsStatus.SkillsCache.Finalise` | components/AIChatSidePanel.tsx:181-185 | frees the request of its own version only |

## Left out

- KeyPaths.Aliases: case folding covers ASCII letters only, and the home directory does not change during one call.
- PassphraseStore.StoredPaths: the entries after the exact spelling come in any order, where the program has the insertion order of the stored object.
- PassphraseImport.Import: callers that pass a fixed key list in place of a current one.
- Removing, clearing and deleting remembered passphrases, and the export reads: loops and filters without a property across operations.
- SidecarBridge.Bridge.Collect: calls do not overlap, and no crash falls between the host's acceptance and the clearing of the slot, after which the same bundle would be replayed once more.
- ModelCache.Cache.Refresh: a loader that calls back into the cache before it returns its promise.
- VaultApply.VaultStore.ApplyProtected: one apply at a time, and no other edit of the vault while it runs; the end of an overlapping apply would clear the shared sentinel. The host is trusted to answer an older backup only for equal content.
- BackupLocks.SurvivesRun: the clock of the main process does not go back, so that listing by time is listing by age; records that cannot be parsed are not counted by retention.
- RestoreBarrier.Barrier.Run: barriers are not nested, and heartbeats keep to their grid; a tick that comes late counts as missed.
- SecretsConnect.SecretHost.Put: whether a secret can be decrypted does not change between two attempts, and references are never drawn twice.
- SecretsConnect.StoreThenConnect: one connect at a time; a second one for the same plugin could put and stash between the host calls of the first.
- AiSessions.SessionStore.Apply: which sessions are stopped and the cleanup of removed ones, which nobody waits for; what retention keeps is a parameter; with nothing to clean up, the await gives way only to callbacks that are already queued, and these are taken to leave the sessions alone.
- AiSessions.MergeLists: how the messages of two copies of one session are merged.
- AiBindings.AiSettings.Apply: the other AI settings; while the web search key is encrypted, others may write the same settings.
- ConvergentMigration.Prepare: the final sort of the baselines, and baselines and downloads that arrive in different orders.
- ConvergentMigration.SyncStore.Initialize: the publishing that follows the lock, and clearing the convergent storage.
- The backup before a version change, plugin host readiness, and reading of malformed stored JSON.
- React views, dialogs, Electron wiring, and the field-by-field copying of settings: one-branch facts only.
