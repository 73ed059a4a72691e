# Farrier, modelled and proved in Dafny

Farrier deploys and keeps alive a self-hosted Forgejo instance: `init` makes a
bundle and its key material, `up` converges a host to the bundle, `backup`
captures, verifies, seals and stores the instance's state. What is hard in it is
what survives a process that stops anywhere and is started again, what survives
pushes and subscribers that arrive at any moment, and a handful of texts that
have to be read back exactly. This project models those parts and proves their
promises for all inputs, all interleavings and all runs.

Code that changes things in place is a class with methods, proved against
functions of the state; the promises over whole runs are lemmas about those
functions. `dafny verify dfyconfig.toml` checks everything.

| file | what it models |
|---|---|
| `events.dfy` | the job event stream: locked sections as methods, their interleaving as a state machine |
| `initkeys.dfy`, `initproofs.dfy`, `initguard.dfy`, `inittheorems.dfy` | `init`: keystore, rotation guard, resume record, and every sequence of interrupted attempts in any directories at any keystore targets |
| `hoststate.dfy`, `ownerrecord.dfy`, `projectname.dfy`, `host.dfy`, `hosttheorems.dfy` | `up` on a host directory: what its owner, version and project records read as, the text files that hold them, converge, and every sequence of interrupted deployments by any bundles |
| `swap.dfy` | replacing a Compose directory through a staging directory; `Bundle.Save` and `Load` |
| `capture.dfy` | database, refs and objects captured while pushes arrive |
| `backuprun.dfy`, `backuporder.dfy` | a backup's steps, their order, events, error and push hold under every combination of failures |
| `verify.dfy` | the captures, the manifest and `Verify` |
| `paths.dfy`, `archive.dfy`, `trees.dfy`, `delivery.dfy` | `tarDir`, `untar` and its escape check, the tree a capture leaves, verification of the sealed archive, the put |
| `text.dfy`, `wrap.dfy`, `redact.dfy`, `shell.dfy`, `snapshotkey.dfy`, `cloneurl.dfy` | word wrap, redaction, shell quoting, snapshot names, clone URLs and known_hosts names |

## Where the code does less than is said of it

Each of these is a lemma here, with the exact condition under which the promise
does hold wherever that could be stated.

- `Run`'s comment and `recoveryHint` say a retry needs no file deleted by hand. A
  stop between installing `compose/` and writing the manifest is refused on every
  retry (`TornSaveBlocksEveryRetry`). A retry of one directory at one target is
  refused exactly when part of the bundle is there (`RetryRefusedExactly`).
- A resume record names what a run meant to store, so a directory that died right
  after its record adopts keys another directory stored there later
  (`StaleRecordSharesIdentity`). `StaysHonestExactly` says which attempts bring that
  about, `HonestThroughoutExactly` which runs never do, and `AdoptsExactly` when the
  next attempt takes the keys over, each told from the state before the attempt
  (`StoresIdentityExactly`).
- Farrier's design document promises that an instance deployed by an older binary is
  never orphaned, and so does the comment on the legacy name
  (internal/core/orchestrate/compose_command.go:21-24). It is orphaned where that binary
  stopped between removing `compose/` and renaming the new one. Its
  containers then run under the legacy name with nothing beside them to say so, the
  next deployment pins a derived name, and every later command misses them
  (`UnfinishedLegacySwapOrphans`). A directory never loses a container, whatever is
  deployed and wherever it stops, exactly when it is settled to begin with
  (`NeverOrphansExactly`).
- Two overlapping `Emit` calls can close a subscriber's channel before an event
  reaches it (`OverlapLosesAnEvent`). It is decided, for good, when the forwarder
  leaves: exactly when an event is still to be pushed to it then (`MissesExactly`).
  Nothing is lost from the queues themselves (`EveryEventExactlyOnce`).
- `Save`'s comment calls the swap two system calls with `compose/` missing between
  them. The removal unlinks file by file, so a stop in it leaves part of the old
  bundle, which `Load` accepts: `StoppedSaveLoads` says which parts, and a re-save is
  sure to pass only through whole versions exactly when the old bundle has one file
  (`ResaveIsWholeExactly`).
- "An owned directory keeps its owner" is false of a manifest edited by hand. Only
  `init` and `attach` refuse a domain with a line break, and a second line in the
  owner record's own form is read back as the owner: the deployment hands its own
  directory to the key written there and is refused ever after
  (`HandEditedDomainLocksOut`). `OwnerReadsBackExactly` says for every domain when
  that happens, `OwnerKeptExactly` what one deployment does to an owned directory,
  and `OwnerStaysExactly` when a whole run keeps its owner.
- An image pinned with a blank before its name passes validation. Where it is started,
  it is then refused as another version, because its record reads back trimmed
  (`WellFormedExactly`, `StartIsRecordedExactly`, `RestartAllowedExactly`).
- A repository named like another one plus ".refs" shares a path with it and is no
  longer found (`CaptureDefectsExactly`, `RepositoryIsFoundExactly`,
  `DotRefsRepositoryFails`).
- A destination that is "." or "/" itself refuses every entry
  (`BareRootRefusesExactly`), and one of double dots only lets an entry ".." out
  (`LetsOutExactly`).
- A secret that is a piece of the word "redacted" is still there after redaction, and
  one with brackets can be made by it (`HidesExactly`, `BracketedSecretLeaks`). One
  secret of any kind is hidden on every text exactly when it does not overlap the
  placeholder (`SingleHidesExactly`).

## Assumptions

- Text is ASCII: one character is one byte, and white space is ASCII white space.
- SHA-256, the keystore fingerprint and the host key's public half are symbolic and
  tell their inputs apart. The digest in a project name is not assumed to. One keystore
  reference is one store: two spellings of a store, or one relative path from two working
  directories, are not told apart, and interference through them is not seen.
- One key store, one file write through a temporary file, and one rename are each
  atomic. A call that fails stops the run, as a crash does. No two `init` or `up`
  runs race on one target.
- A push is atomic with respect to the hold, adds objects, and is refused when it would
  leave a ref without its objects. Nothing collects garbage during a backup.
- Snapshot, blob and key names are clean: joining one to a directory does not rewrite
  it. Trees hold directories and regular files. A missing database file opens as an
  empty one.

## Model

| member | source | states |
|---|---|---|
| JobEvents.Subscriber.Push | internal/core/events/job.go:188-193 | an event goes to the end of the queue |
| JobEvents.Subscriber.Close | internal/core/events/job.go:199-204 | closing keeps what is queued |
| JobEvents.Subscriber.Abandon | internal/core/events/job.go:212-215 | abandoning closes and stops delivery |
| JobEvents.Subscriber.Forward | internal/core/events/job.go:217-239 | a closed feed is delivered whole, in order, before the channel closes |
| JobEvents.PushAll | internal/core/events/job.go:76-81 | every target gets the event, and is closed by a terminal one; no other is touched |
| JobEvents.Job.Emit | internal/core/events/job.go:45-83 | after the terminal event nothing is appended; before it the log grows by one and every registered feed gets the event; a whole-job success or failure, and nothing else, ends the job and closes every feed |
| JobEvents.Job.Subscribe | internal/core/events/job.go:133-160 | a subscriber starts with the whole log; after the end it is closed and unregistered |
| JobEvents.Job.Cancel | internal/core/events/job.go:153-158 | cancelling removes that subscriber only and abandons it, its queue untouched |
| JobEvents.EveryEventExactlyOnce | internal/core/events/job.go:45-83 | under every interleaving, overlapping emits included, each uncancelled subscriber has every logged event exactly once |
| JobEvents.StreamIsTheLog | internal/core/events/job.go:118-160 | with one emitter at a time, received, in hand, queued and not yet pushed are the log in order, whenever the subscriber attached; a closed channel means the whole log, ended by its one terminal event, was received |
| JobEvents.OpenExactly | internal/core/events/job.go:45-71 | read off the log, under every interleaving: another event is accepted exactly while the last one is no whole-job success or failure, and none before the last is one |
| JobEvents.EndIsFinal | internal/core/events/job.go:45-83 | from any state, after a whole-job success or a whole-job failure nothing more is logged, no emit is accepted and nobody is registered, whatever runs |
| JobEvents.ForwarderDrains | internal/core/events/job.go:217-239 | by its own takes and sends alone, whatever the job does, a forwarder gets to its reader all it holds, in order |
| JobEvents.AbandonedLeaves | internal/core/events/job.go:206-239 | an abandoned subscriber's forwarder can end in at most two steps without its reader taking anything |
| JobEvents.StuckMeansComplete | internal/core/events/job.go:217-239 | once the last event logged is a whole-job success or failure and the forwarder has nothing left to do, the channel is closed and complete |
| JobEvents.NextKeepsShape | internal/core/events/job.go:45-71 | every step keeps a single terminal event, at the end of the log, and nobody registered after it |
| JobEvents.EmitIsItsSteps | internal/core/events/job.go:45-83 | the steps of one emit with nothing in between do to the system what Job.Emit does to a job, in any order of its subscribers |
| JobEvents.SubscribeIsItsStep | internal/core/events/job.go:133-160 | the subscribe step does what Job.Subscribe does |
| JobEvents.MissesExactly | internal/core/events/job.go:217-228 | under every interleaving and every continuation, a reader misses an event exactly when one is still to be pushed to it at the moment its forwarder leaves |
| JobEvents.RelayIsLive | internal/core/backup/orchestrate.go:186-209 | while the capture runs, what its relay passed on is a leading part of its step events in order, and all of them once the stream closed |
| JobEvents.StepEventsAre | internal/core/backup/orchestrate.go:186-196 | what a relay passes on is every event with a step, as often as it was logged, and no other |
| JobEvents.OverlapLosesAnEvent | internal/core/events/job.go:74-81 | two overlapping emits can close a channel before the other's event reaches it |
| InitRun.KeyOrder | internal/core/initialize/keys.go:60-70 | the store order holds every name init knows once, the private host key directly before its public half |
| InitRun.Keystore.Store | internal/core/keystore/guard.go:37-47 | a protected name is written only on a positive "not found"; every other case leaves the keystore alone and says why |
| InitRun.Classify | internal/core/initialize/resume.go:239-256 | the identity keys present split into the recorded ones and the conflicts |
| InitRun.InspectKeystore | internal/core/initialize/resume.go:215-302 | what inspection gives is what InspectExactly says of the keystore, the record and the target |
| InitRun.InspectExactly | internal/core/initialize/resume.go:215-302 | told by the keys there: any identity key the target's record does not name is a conflict and listed; short of that only a stray or unreadable half of the host key refuses, and a missing public half is derived from the private one |
| InitRun.GenerateKeyMaterial | internal/core/initialize/keys.go:95-148 | exactly the material of the names not reused, a host key pair only as a pair and a certificate only where one was proved; GeneratedByKey says which value each name gets |
| InitRun.GeneratedByKey | internal/core/initialize/keys.go:95-148 | name by name, what is generated and when: each secret its own value, a host key pair of one seed, a certificate with its key |
| InitRun.GenerateRandom | internal/core/initialize/keys.go:100-110 | the random secrets not reused, and only those, each its own value |
| InitRun.StoreInOrder | internal/core/initialize/keys.go:303-314 | how far storing in order gets before it stops, and what is stored then |
| InitRun.StoreKeyMaterial | internal/core/initialize/keys.go:303-314 | the same in the order init uses |
| InitRun.BundleDir.Run | internal/core/initialize/initialize.go:319-492 | one attempt: record before the first store, compose, manifest, record removed; a refused one changes nothing |
| InitProofs.StoringKeepsOk | internal/core/initialize/keys.go:303-314 | storing from an admitted state keeps the keys present a prefix of the order and the pair matching, wherever it stops |
| InitProofs.ExecuteEffect | internal/core/initialize/initialize.go:424-483 | where an admitted attempt can leave keystore and directory |
| InitProofs.StoredByKey | internal/core/initialize/keys.go:95-148 | wherever an admitted attempt stops, each key that was not there has the value generated for that very name, the public half that of the private one there, and what was there is kept but for a new certificate |
| InitProofs.StoreAllStops | internal/core/initialize/keys.go:303-314 | with effects to spare, storing stops at the first name whose protected key is there already, and only there |
| InitProofs.PublicLineDecides | internal/core/initialize/keys.go:212-224 | an admitted attempt over a stored public half writes the bundle if and only if that is at least a type and a blob |
| InitProofs.IdentityNeverChanges | internal/core/keystore/guard.go:37-47 | over every run of attempts anywhere, a stored non-rotating key keeps its value |
| InitProofs.RunReachable | internal/core/initialize/initialize.go:319-492 | every run keeps all the invariants of keystores, records and manifests |
| InitTheorems.RecordNamesEveryStoredKey | internal/core/initialize/initialize.go:424-445 | while no bundle is finished, every identity key the directory stored at its recorded target is named by its record |
| InitTheorems.PresentKeysAreAPrefix | internal/core/initialize/keys.go:52-70 | the identity keys present are a prefix of the store order; a public half without its private half is unreachable |
| InitTheorems.AdmitsExactly | internal/core/initialize/resume.go:215-302 | inspection and pair repair admit exactly an empty target or one the record matches, where no bundle file is |
| InitTheorems.RefusedExactly | internal/core/initialize/resume.go:215-302 | after any run, exactly when the next attempt is refused |
| InitTheorems.AcceptedRunFinishes | internal/core/initialize/initialize.go:424-483 | an admitted attempt whose calls succeed leaves all identity keys, each the one that was there or the one generated for that name, a pair of one seed equal to the manifest's copy, a proved certificate, and no record |
| InitTheorems.RetryRefusedExactly | internal/core/initialize/initialize.go:298-318 | crashed attempts of one directory at one target are refused exactly when part of the bundle is there |
| InitGuard.AddsExactly | internal/core/initialize/keys.go:303-314 | storing gets to an identity key exactly when it may make more stores than rotating keys lie ahead of one |
| InitGuard.StoresExactly | internal/core/initialize/initialize.go:424-459 | an admitted attempt puts a new identity key in place exactly when one is missing and it gets past its record and, once the forge's keys are there, a new certificate |
| InitTheorems.ClearedBundleFinishes | internal/core/initialize/initialize.go:762-771 | removing compose/ and the manifest but not the record makes the next attempt at the recorded target admitted and finish, on the identity keys that were there |
| InitTheorems.TornSaveBlocksEveryRetry | internal/core/initialize/initialize.go:754-771 | a stop between compose/ and the manifest blocks every later attempt |
| InitTheorems.StoresIdentityExactly | internal/core/initialize/initialize.go:424-459 | the guard of the next rows, read before the attempt, holds exactly when the attempt stores an identity key that was not there |
| InitTheorems.StaysHonestExactly | internal/core/initialize/resume.go:66-69 | one attempt leaves every directory's record and manifest naming only keys it stored exactly when it stores no identity key under another's unfinished record |
| InitTheorems.HonestThroughoutExactly | internal/core/initialize/resume.go:66-69 | a run from nothing is honest at every point exactly when no attempt of it interferes like that |
| InitTheorems.TwoBundlesTwoIdentities | internal/core/initialize/resume.go:66-69 | in such a run, refused and idle attempts allowed, two finished bundles never share a target |
| InitTheorems.StaleRecordSharesIdentity | internal/core/initialize/resume.go:66-69 | without that, two directories end with one identity |
| InitTheorems.AdoptsExactly | internal/core/initialize/resume.go:239-256 | exactly when an attempt makes another directory's next one take over keys it did not store |
| OwnerRecord.Parse | internal/core/deploy/stateowner.go:110-125 | the line loop computes the record's meaning |
| OwnerRecord.RecordIs | internal/core/deploy/stateowner.go:98-105 | the record's lines as they stand on disk, the domain's only where there is one |
| OwnerRecord.NormalizeIsIdempotent | internal/core/deploy/stateowner.go:138-144 | normalising twice is normalising once, and the result has no line break |
| OwnerRecord.CommentDoesNotCount | internal/core/bundle/manifest.go:524-530 | a comment after type and blob never changes the key compared |
| OwnerRecord.RecordReadsBackExactly | internal/core/deploy/stateowner.go:98-125 | a printed record reads back as the same owner if and only if its key is normalised and its domain trimmed and on one line |
| OwnerRecord.RecordedKeyExactly | internal/core/deploy/stateowner.go:98-125 | for every domain, the key a record reads as: its own, or the last that a later line of the domain gives |
| OwnerRecord.SecondLineNamesAnother | internal/core/deploy/stateowner.go:98-125 | a domain with a second line in the record's form reads back as another owner |
| OwnerRecord.UnknownLineIsIgnored | internal/core/deploy/stateowner.go:107-123 | an unknown field line, anywhere in a record, changes nothing |
| ProjectName.ProjectSlug | internal/core/orchestrate/compose_command.go:106-124 | the loop with its dash flag and length cut computes the slug |
| ProjectName.SlugIsUsable | internal/core/orchestrate/compose_command.go:98-124 | a slug holds only what a project name may, no dash at an end or beside another, and its characters are the domain's own in order |
| ProjectName.SlugOneMore | internal/core/orchestrate/compose_command.go:106-124 | up to its bound a slug read off the domain one character at a time: a letter or digit is added in lower case, with one dash before it where others came between |
| ProjectName.LettersAre | internal/core/orchestrate/compose_command.go:109-113 | the characters a slug keeps are the ASCII letters and digits, lowered, in order |
| ProjectName.SlugIsEmptyExactly | internal/core/orchestrate/compose_command.go:100-103 | a slug is empty exactly when the text has nothing usable |
| ProjectName.DerivedIsAccepted | internal/core/orchestrate/compose_command.go:81-96 | a derived name is one Compose accepts and never the legacy name |
| ProjectName.DerivedParts | internal/core/orchestrate/compose_command.go:81-96 | the last eight characters of a derived name are the digest, and between the prefix and it stands the slug |
| ProjectName.DerivedIsUnique | internal/core/orchestrate/compose_command.go:62-96 | two derived names are equal if and only if digest and slug are |
| HostFiles.WellFormedExactly | internal/core/deploy/stateowner.go:155-165 | the owner recorded reads back as written if and only if the domain is a single line, and the image if and only if it is trimmed |
| HostFiles.OwnerReadsBackExactly | internal/core/deploy/stateowner.go:98-125 | the recorded key reads back if and only if no later line of the domain gives another |
| HostFiles.RecordedImageIsStable | internal/core/deploy/stateversion.go:31-41 | an image read from a version record, pinned again, is recorded as itself |
| HostFiles.HandEditedDomainLocksOut | internal/core/deploy/stateowner.go:254-287 | a hand-edited second line of the domain changes the directory's owner and locks its instance out |
| HostFiles.PinReadsBack | internal/core/orchestrate/compose_command.go:149-164 | a pinned name, derived or legacy, is the name later commands resolve |
| HostFiles.DirectoriesStayApart | internal/core/orchestrate/compose_command.go:62-96 | two fresh directories whose deployments share no digest never resolve one project once one of them has pinned its own, whatever their domains and wherever they stopped: no container of one is addressed from the other |
| HostFiles.UnfinishedLegacySwapOrphans | internal/core/orchestrate/compose_command.go:134-143 | a legacy directory without compose/ and record loses its containers at the next deployment of its own bundle |
| HostFiles.HostDirectory.ReadStateOwner | internal/core/deploy/stateowner.go:190-205 | the record if it names someone, else the installed key |
| HostFiles.HostDirectory.CheckStateOwner | internal/core/deploy/stateowner.go:254-287 | a stranger is refused with no field of the directory changed; otherwise the owner file is the record and no other file changes |
| HostFiles.HostDirectory.ConfigureSSHHostKey | internal/core/deploy/sshhostkey.go:56-83 | the instance's own public key is installed |
| HostFiles.HostDirectory.CheckStateVersion | internal/core/deploy/stateversion.go:84-117 | any image is let in under a migration, without one only the recorded image or any where none is recorded; what is let in is recorded before anything starts |
| HostFiles.HostDirectory.PinProjectName | internal/core/orchestrate/compose_command.go:149-164 | a non-empty record stays; an absent or torn one is pinned by whether files were already shipped, to the legacy name or to slug and digest |
| HostFiles.HostDirectory.ShipAndSwap | internal/core/orchestrate/converge.go:67-81 | the two writes of the swap, with the exact states passed through for every number of them made |
| HostFiles.HostDirectory.Converge | internal/core/orchestrate/converge.go:43-91 | stage, pin, ship, swap, start, stopped anywhere: the old directory up to the swap and then its exact states; on success exactly the deployment's files |
| HostFiles.HostDirectory.Up | internal/core/deploy/deploy.go:329-427 | the order of checks and writes, stopped anywhere, and exactly when it completes; completed, every record is the deployment's own and its container is started; a stranger leaves every file as it was |
| HostTheorems.StopKeepsRecords | internal/core/deploy/deploy.go:329-427 | every stop of a deployment: the owner record its own or untouched, a pinned project left alone, a start only after the version record |
| HostTheorems.FinishedState | internal/core/deploy/deploy.go:329-427 | all that a deployment allowed to finish does, read off the two states: nothing for a stranger, owner and key for an image refused, and otherwise every record, the shipped files and one container under the project recorded |
| HostTheorems.NeverOrphansExactly | internal/core/orchestrate/compose_command.go:127-209 | every container ever started is the one later commands address, over every run, if and only if the directory is settled to begin with |
| HostTheorems.UnfinishedSwapIsOrphaned | internal/core/orchestrate/compose_command.go:149-164 | from a directory with containers, no record and no files, the next deployment resolves another project |
| HostTheorems.DirectoryStaysSettled | internal/core/orchestrate/compose_command.go:127-209 | over every run from a settled directory, it stays settled |
| HostTheorems.EveryContainerStaysReachable | internal/core/orchestrate/compose_command.go:127-209 | the project later commands resolve is that of every container ever started, and a pinned name never changes |
| HostTheorems.UnrecordedFilesAreLegacy | internal/core/orchestrate/compose_command.go:134-143 | shipped files beside no non-empty record occur only where they were to begin with |
| HostTheorems.OwnerKeptExactly | internal/core/deploy/stateowner.go:254-287 | one deployment keeps an owned directory's owner if and only if it is refused, stopped before its claim, or its record reads back as its key or as nobody beside its installed key |
| HostTheorems.OwnerStaysExactly | internal/core/deploy/stateowner.go:254-287 | a run keeps one owner throughout if and only if each deployment in turn meets that guard |
| HostTheorems.OwnerNeverChanges | internal/core/deploy/stateowner.go:254-287 | over every run whose owner keys read back, an owned directory keeps its owner |
| HostTheorems.AdmitsItsOwnerExactly | internal/core/deploy/stateowner.go:254-287 | after such a run it admits exactly the deployments with its key, whatever their domain; any other writes nothing |
| HostTheorems.MisreadClaimLocksOut | internal/core/deploy/stateowner.go:254-287 | a claim that reads as another key makes that key the owner and refuses the instance that made it |
| HostTheorems.DirectoryStaysOneInstance | internal/core/deploy/deploy.go:329-427 | over every run whose owner keys read back, all containers and the installed host key are the owner's |
| HostTheorems.EveryRunFromFresh | internal/core/deploy/deploy.go:329-427 | all of this from a fresh directory |
| HostTheorems.RecordNamesWhatStarted | internal/core/deploy/stateversion.go:49-63 | while the version record keeps a value no other image is started, if images read back |
| HostTheorems.StartIsRecordedExactly | internal/core/deploy/stateversion.go:49-63 | a start leaves the record naming its image if and only if the image reads back |
| HostTheorems.RestartAllowedExactly | internal/core/deploy/stateversion.go:84-117 | a started image may be started again without a migration if and only if its record reads as it or as nothing |
| HostTheorems.OnlyMigrationChangesTheImage | internal/core/deploy/stateversion.go:65-117 | without a migration a recorded image stays and is all that starts |
| HostTheorems.OneImageWithoutMigration | internal/core/deploy/stateversion.go:65-117 | from a fresh directory all starts without a migration are of the recorded image, if images read back |
| HostTheorems.RedeployStartsExactly | internal/core/deploy/deploy.go:329-427 | after any interruptions, a deployment allowed to finish starts the forge exactly when key, image and files permit |
| HostTheorems.UpgradeCompletes | internal/core/deploy/stateversion.go:84-117 | after any run an upgrade by the owner, given its writes, ends with its image recorded and its container started whatever image was recorded before |
| StagedInstall.SortedNames | internal/core/bundle/bundle.go:163-167 | the names, each once, in ascending order |
| StagedInstall.AscendingShipsAll | internal/core/bundle/bundle.go:167-172 | shipped in ascending order, temporary files never take a shipped file's place |
| StagedInstall.UnsortedShippingLosesAFile | internal/core/bundle/bundle.go:187-197 | in another order they can |
| StagedInstall.ComposeFolder.Prepare | internal/core/orchestrate/converge.go:54-56 | an empty staging directory from any leftovers, the installed one untouched throughout |
| StagedInstall.ComposeFolder.Write | internal/core/bundle/bundle.go:187-197 | a file written beside its target and renamed |
| StagedInstall.ComposeFolder.Ship | internal/core/orchestrate/converge.go:67-77 | the staging directory holds exactly the files, the installed one untouched throughout |
| StagedInstall.ComposeFolder.RemoveInstalled | internal/core/bundle/bundle.go:174-176 | the states it passes through: the old files without the first one, two, and so on of some order, then nothing |
| StagedInstall.ComposeFolder.Install | internal/core/bundle/bundle.go:177-179 | the staged directory becomes the installed one |
| StagedInstall.BundleFolder.Save | internal/core/bundle/bundle.go:141-185 | from any starting state exactly the bundle, which loads back as itself; the states it passes through, the old directory up to the swap and then each unlinking; a refused save changes nothing |
| StagedInstall.LoadsExactly | internal/core/bundle/bundle.go:81-131 | what loads is exactly what could have been saved; a missing or invalid manifest is refused for that whatever compose/ holds, and missing Compose files for that |
| StagedInstall.StoppedSaveLoads | internal/core/bundle/bundle.go:133-140 | exactly what can load from the states of the swap: the old manifest beside all the new files, or beside what some number of unlinkings left of the old |
| StagedInstall.StoppedSaveIsWholeExactly | internal/core/bundle/bundle.go:133-140 | every one of those states loads as a whole version exactly when the old bundle has one file, or two of which the first unlinking leaves the new files |
| StagedInstall.ResaveIsWholeExactly | internal/core/bundle/bundle.go:133-140 | for every order the files may be listed in at once: exactly when the old bundle has a single file |
| StagedInstall.AlwaysOneVersion | internal/core/orchestrate/converge.go:51-81 | over the history of any Save or Converge, stopped anywhere, the old directory is whole or the new one complete on disk |
| PushHoldCapture.LandedKeepsSound | internal/core/backup/pushhold.go:15-26 | a push keeps every repository connected, only adds objects, and keeps the database in step |
| PushHoldCapture.LiveForge.Receive | internal/core/backup/pushhold.go:22-29 | under the hold nothing lands; otherwise objects only grow |
| PushHoldCapture.CaptureRefs | internal/core/backup/capture.go:40-58 | every recorded ref's objects are on the forge; under the hold all refs are of one state |
| PushHoldCapture.CaptureOne | internal/core/backup/capture.go:96-109 | an archive opened after the refs were recorded holds everything below them |
| PushHoldCapture.CaptureObjects | internal/core/backup/capture.go:61-79 | the same for every repository, while pushes flow |
| PushHoldCapture.Capture | internal/core/backup/backup.go:114-137 | whatever arrives and when, every recorded ref's closure is in its repository's archive; under a hold database and refs are of one instant and agree; without one they agree exactly when nothing disturbed them |
| PushHoldCapture.ConnectedHasNoDanglingLink | internal/core/backup/capture.go:61-67 | no object below a recorded ref links to one that is missing |
| PushHoldCapture.SettledRefs | internal/core/backup/pushhold.go:15-21 | after any pushes, a repository's refs are those of the last that landed on it |
| PushHoldCapture.UnheldAgreesExactly | internal/core/backup/pushhold.go:28-40 | without a hold, database and refs taken in turn agree if and only if no repository appeared and the last push to land on each before its turn left its refs alone |
| PushHoldCapture.TornExactly | internal/core/backup/pushhold.go:15-21 | any number of pushes between database and refs makes them disagree exactly when the last to land on some repository changes its refs or creates it |
| PushHoldCapture.ObjectsFirstMisses | internal/core/backup/capture.go:61-67 | in every state of the forge and for every repository some push makes an archive taken before it and refs recorded after it not fit together |
| BackupRun.CaptureUnderHold | internal/core/backup/backup.go:212-286 | release once if and only if engaged; its outcome closes the hold's step; its failure joins the capture's |
| BackupRun.Run | internal/core/backup/backup.go:102-175 | the capture's events, its end, and an error naming every failed step |
| BackupRun.Relay | internal/core/backup/orchestrate.go:186-196 | every step event of the private job in order, and not its end |
| BackupRun.RunCapture | internal/core/backup/orchestrate.go:180-214 | the outer job gets exactly the capture's step events |
| BackupRun.BackupSteps | internal/core/backup/orchestrate.go:118-153 | the steps in order, stopping at the first failure |
| BackupRun.Backup | internal/core/backup/orchestrate.go:108-116 | one terminal event, last; release exactly once per engagement |
| BackupRun.EveryStepHasOneOutcome | internal/core/backup/backup.go:102-300 | for every combination of failures each step is silent, or started and then once reported as what became of it; a hold whose release fails is reported failed |
| BackupRun.WriteComesAfterEverything | internal/core/backup/orchestrate.go:118-153 | the put starts only after every other step was reported a success |
| BackupRun.SuccessMadeEveryStep | internal/core/backup/orchestrate.go:118-153 | a backup that succeeds made every step, the put included, each reported a success |
| BackupOrder.StepsComeInOrder | internal/core/backup/backup.go:102-175 | whatever fails: database and then refs while the hold is engaged and neither after it; objects, blobs, keys and manifest in that order once it was released well; sealing only after verification, the second verification only after sealing, the put only after that |
| BackupRun.SucceedsExactly | internal/core/backup/backup.go:212-286 | success exactly when no step is reported failed; a failed release alone fails the backup, and is named after the capture's failure |
| BackupRun.FailuresAre | internal/core/backup/backup.go:212-286 | the error names exactly the steps reported failed |
| BackupRun.NoWholeStep | internal/core/backup/orchestrate.go:186-196 | no step event looks like a job's end |
| SnapshotVerify.SnapshotDir.CaptureAll | internal/core/backup/backup.go:108-150 | the files written and the manifest's components, in order: the database, every blob, every key and every object archive at its path with its own bytes, and every refs archive no other repository's objects displace |
| SnapshotVerify.SnapshotDir.CaptureBlobs | internal/core/backup/capture.go:111-150 | every blob at its path with its own bytes, in key order, whatever order they were listed in |
| SnapshotVerify.CapturedFiles | internal/core/backup/backup.go:108-150 | the same from any directory, read off the source alone |
| SnapshotVerify.CapturedElsewhere | internal/core/backup/backup.go:108-150 | at every other path a capture leaves the directory as it was |
| SnapshotVerify.CapturedComponents | internal/core/backup/capture.go:81-180 | the manifest has a component for each thing captured, with its path and the checksum of its bytes, and no other |
| SnapshotVerify.VerifyCompleteness | internal/core/backup/verify.go:95-131 | its defects are exactly another checksum algorithm, a wrong database count and the missing keys |
| SnapshotVerify.VerifyChecksums | internal/core/backup/verify.go:138-160 | its defects are exactly the components whose file is missing or changed |
| SnapshotVerify.VerifyRepositoryReferences | internal/core/backup/verify.go:208-248 | its defects are exactly a table that cannot be queried or read to its end, a row that cannot be scanned, and the rows without refs or without objects |
| SnapshotVerify.VerifyBlobReferences | internal/core/backup/verify.go:270-315 | its defects are exactly a table that cannot be queried or read to its end, a row that cannot be scanned, and the identifiers in no captured blob's name |
| SnapshotVerify.VerifyCrossConsistency | internal/core/backup/verify.go:182-201 | a database that does not open is the one defect; otherwise those of the three tables |
| SnapshotVerify.Verify | internal/core/backup/verify.go:80-90 | it returns every defect there is and nothing else |
| SnapshotVerify.DefectMeans | internal/core/backup/verify.go:80-315 | each defect in terms of the files, the manifest and the rows of the database |
| SnapshotVerify.NoDefectExactly | internal/core/backup/verify.go:60-79 | there is none exactly when the snapshot is complete, unchanged and consistent |
| SnapshotVerify.WrittenIsFaithfulExactly | internal/core/backup/checksum.go:16-35 | everything captured still verifies exactly when no path was given two contents |
| SnapshotVerify.PathsAreSafeExactly | internal/core/backup/capture.go:81-109 | with unique names that is so exactly when no repository's objects differ from refs they share a path with |
| SnapshotVerify.ObjectsLookLikeRefsExactly | internal/core/backup/verify.go:211-221 | an object archive is taken for refs exactly when the name ends in ".refs" |
| SnapshotVerify.RepositoryIsFoundExactly | internal/core/backup/verify.go:208-248 | a row finds its refs when captured, and its objects when, besides, its name does not end in ".refs" |
| SnapshotVerify.CaptureIsComplete | internal/core/backup/verify.go:95-131 | a capture has one database and every key |
| SnapshotVerify.CaptureDefectsExactly | internal/core/backup/verify.go:80-90 | the defects of a fresh capture, each told from what was captured |
| SnapshotVerify.CaptureIsCleanExactly | internal/core/backup/verify.go:80-90 | it has none exactly when shared paths agree and the database's references are met |
| SnapshotVerify.CaptureAndVerify | internal/core/backup/backup.go:108-170 | capture and verification together return exactly those |
| SnapshotVerify.DotRefsRepositoryFails | internal/core/backup/capture.go:88-103 | of a repository named like another's refs, the untouched capture is reported to lack its objects, and to have changed the path the two share where they differ |
| Paths.InsideExactly | internal/core/backup/orchestrate.go:281-284 | the check on cleaned text lets through exactly the entries whose path goes on from the destination's, absolute or relative; of one with a name of its own those are reached by names alone |
| Paths.LetsOutExactly | internal/core/backup/orchestrate.go:281-284 | it lets something out of the destination if and only if that is made of double dots only |
| Paths.BareRootRefusesExactly | internal/core/backup/orchestrate.go:281-284 | where the destination is "." or "/" it lets through nothing but the destination itself |
| Paths.TargetTextIsTarget | internal/core/backup/orchestrate.go:281 | the joined and cleaned text and the path it leads to are the same place |
| Paths.DoubleDotUndoes | internal/core/backup/orchestrate.go:281 | a double dot undoes the name before it, and from the destination goes to the directory above |
| SnapshotArchive.TarWriter.TarWalk | internal/core/backup/git.go:117-156 | entries in walk order, each directory before what is in it |
| SnapshotArchive.FileSystem.MakeAll | internal/core/backup/orchestrate.go:286-294 | every missing directory on the way, unless a file is in it |
| SnapshotArchive.FileSystem.ExtractOne | internal/core/backup/orchestrate.go:281-305 | one entry, refused as an escape exactly when its path does not go on from the destination's, and touching nothing beside the destination whatever comes of it |
| SnapshotArchive.FileSystem.Untar | internal/core/backup/orchestrate.go:261-308 | entries extracted in turn, and the first failure; it completes only if every entry leads to the destination or below, an escape named is one, and wherever it stops nothing beside the destination was touched |
| SnapshotArchive.WalkExtracts | internal/core/backup/orchestrate.go:257-308 | extracting a directory's entries rebuilds it over whatever is there and touches nothing else, exactly when nothing there is of the wrong kind |
| SnapshotArchive.TreeIsRebuilt | internal/core/backup/git.go:90-156 | the archive of any tree extracts to that tree over any destination exactly when no leftover is in its way; the escape check never fires |
| SnapshotTrees.InsertedLookup | internal/core/backup/checksum.go:16-35 | what one write leaves: its file, the directories on the way, and everything else as it was |
| SnapshotTrees.CaptureTree | internal/core/backup/checksum.go:16-35 | the tree that writes leave from whatever was there: the files, each as last written, the directories on the way, and elsewhere what was there |
| SnapshotDelivery.VerifyEncrypted | internal/core/backup/orchestrate.go:216-254 | it accepts exactly an archive that opens, extracts and verifies |
| SnapshotDelivery.OnlyItsOwnIdentityOpens | internal/core/backup/orchestrate.go:216-254 | bytes nobody can open, an archive sealed to another recipient and one that does not extract never verify |
| SnapshotDelivery.VerifyAndWrite | internal/core/backup/orchestrate.go:118-153 | whatever the sealing made, it is put exactly when its own decrypted contents verify |
| SnapshotDelivery.SecondVerificationAgrees | internal/core/backup/orchestrate.go:216-254 | sealed and opened again, a snapshot verifies exactly when it did before and no leftover is in its way |
| SnapshotDelivery.SealedCaptureVerifiesExactly | internal/core/backup/orchestrate.go:118-153 | from the tree a backup leaves, manifest file and leftovers included, to the second verification: accepted exactly when the capture was sound and nothing where it is opened is in its way |
| SnapshotDelivery.SealedCaptureReadsBack | internal/core/backup/orchestrate.go:118-153 | what extracts from an accepted snapshot is the source byte for byte: database, blobs, keys, refs and objects at their paths, and the manifest |
| Wrapping.Wrap | cmd/farrier/events.go:162-179 | the words in order, no line over the width unless a single word, and no breaking with fewer lines |
| Wrapping.GreedyIsBreaking | cmd/farrier/events.go:162-179 | greedy lines keep the words and fit |
| Wrapping.GreedyIsShortest | cmd/farrier/events.go:162-179 | no other breaking of the same words has fewer lines |
| Redaction.Redact | internal/core/keystore/secret.go:23-31 | the loop applies each non-empty secret in turn |
| Redaction.NothingNew | internal/core/forge/bootstrap.go:103-111 | replacing one secret neither leaves it nor makes another |
| Redaction.RedactionHides | internal/core/keystore/secret.go:23-31 | no listed secret without placeholder text is left, replacements included |
| Redaction.HidesExactly | internal/core/keystore/secret.go:20-31 | a list without brackets hides on every text if and only if none is a piece of "redacted" |
| Redaction.SingleHidesExactly | internal/core/keystore/secret.go:23-31 | one secret, brackets and all, is hidden on every text if and only if it does not overlap the placeholder |
| Redaction.SecretIsReplaced | internal/core/keystore/secret.go:23-31 | a secret is replaced where it first stands and after that, with what is before it kept |
| Redaction.BracketedSecretLeaks | internal/core/keystore/secret.go:23-31 | a secret with a bracket can be made by its own redaction |
| Redaction.CleanTextUntouched | internal/core/forge/appini.go:110-115 | text without secrets is unchanged |
| Shell.QuoteIsOneWord | internal/core/deploy/state.go:239-241 | every string quoted is read as one word equal to it |
| Shell.LineLexes | internal/core/backup/git.go:238-240 | a line of quoted words, plain words and operators is read as them |
| Shell.NestedQuoting | internal/core/forge/bootstrap.go:292-294 | a quoted script of quoted words gives the words back after both readings |
| Shell.ReloadSurvivesBothShells | internal/core/backup/pushhold.go:115-129 | the inner shell is given, word for word and operator for operator, the decoding of the configuration into the path and the reload of caddy from it, through both shells |
| SnapshotKeys.KeyOrderIsFieldOrder | internal/core/backup/destination.go:22-41 | names compare as the civil fields do, and differ when they do |
| SnapshotKeys.FieldOrderIsChronological | internal/core/backup/destination.go:22-41 | the civil fields compare as the seconds elapsed do |
| SnapshotKeys.DaysBeforeYearIs | internal/core/backup/destination.go:22-41 | the days before a year, counted year by year, are those of the Gregorian closed form |
| SnapshotKeys.KeysSortChronologically | internal/core/backup/destination.go:22-41 | names compare exactly as instants, and distinct seconds have distinct names |
| SnapshotKeys.KeyReadsBack | internal/core/backup/destination.go:22-41 | the six civil fields read back from a name at their places |
| CloneURLs.CloneURLRoundTrip | internal/core/bundle/manifest.go:443-449 | the clone URL parses back to host, port, owner and repository in both spellings |
| CloneURLs.SpellingsExactly | internal/core/bundle/manifest.go:443-488 | the short spellings exactly on port 22, and the clone URL's only where the host is no bracketed address |
| CloneURLs.KnownHostsAgrees | internal/core/bundle/manifest.go:472-488 | the known_hosts name denotes the host and port the clone URL leads to |
| CloneURLs.DecimalRoundTrip | internal/core/bundle/manifest.go:448 | a printed port reads back |

## Left out

- HostFiles.HostDirectory.Up: does not model app.ini, certificates, proxy configuration and state directories, which are written after the claim and before the version record, nor the waits and bootstrap after the start.
- HostFiles.HostDirectory.ConfigureSSHHostKey: does not model the private half of the key, its ownership, and the check that the forge can read it.
- Redaction.RedactionHides: for lists of several secrets with brackets only this sufficient condition; a later secret can undo what an earlier one leaks.
- BackupRun.CaptureUnderHold: does not model panics; the deadline of the hold appears only as a step that may fail.
- BackupRun.RunCapture: relays after the capture where the code relays during it, on a plain log; JobEvents.RelayIsLive has the interleaving.
- BackupRun.Relay: passes on a finished log; while it grows, JobEvents.RelayIsLive.
- PushHoldCapture.Capture: does not model edits of the database or of refs that are not pushes, nor pushes over SSH, which the proxy's hold does not reject.
- SnapshotVerify.SnapshotDir.CaptureAll: does not model a file and a directory of one name, which fails the capture itself; SnapshotTrees.CaptureTree asks for captures without one.
- InitRun.BundleDir.Run: takes the Compose directory's install as one step, since nothing is there before it; `swap.dfy` has the steps. Image resolution and the DNS-01 proof come before the first write and are not modelled.
- InitRun.GenerateKeyMaterial: takes a proved certificate to be complete; an empty one ends an attempt before its first write, as a cut of none does.
- InitRun.InspectKeystore: does not tell apart a record that cannot be read or is of a newer schema and a lookup that fails; each ends an attempt before its first write, as a cut of none does.
- JobEvents.Subscriber.Forward: is the forwarder of a closed subscriber whose reader stays; waiting and giving up are steps of the state machine.
- JobEvents.Job.Emit: timestamps are given, not read from a clock, and job identifiers are not generated.
- `LatestSnapshotKey`, `History`, `SnapshotAge` and the prefixed adapter: listing order and retention add only easy members, and the first has no tie-break to state.
- `attach`, `down`, `restore`, `promote`, `upgrade`, `status` and `publish`: separate commands; restore also writes the owner and version records.
- The tar, age, SQLite, YAML and JSON formats, SSH transport, Docker, Caddy, ACME and the CLI and HTTP front ends: foreign formats and calls.
