# Appximo engine: a verified model

This project models the stateful core of the Appximo engine in Dafny and proves what its design
promises: the host registry and the in-process fleet, crash safety of the boot schema, the
deployed write-surface cache, custom-route execution and the boot checks around it, and the load
generator of the drill command. `dafny verify dfyconfig.toml` checks all of it.

The modules follow the engine:

- `Hosts`, `Registry`, `RegistryRuns`, `RegistryProgress`: host resolution, the copy-on-write domain
  table as a class, every interleaving of lock-free readers with writers that fill a fresh map entry
  by entry, and that nobody in it is held up for good.
- `Manifest`, `EnvFile`, `Fleet`, `FleetLifecycle`, `FleetBoot`: the rules for a fleet, the env
  files, the operations as methods on mutable state and as functions on values, and the start.
  `FleetLifecycle` keeps the manifest's slice with its backing array, because a pointer into it
  outlives a shift. The state holds the manifest file and the text of every env file, since a start
  reads both again.
- `FleetRuns`, `HotSwap`, `FleetSecrets`: what holds over every run of operations, hot swaps
  included: coherence of the four states, and separate secrets in memory and among live instances.
- `FleetRestart`, `FleetMirror`: what the next start makes of the disk an operation leaves, and when
  it reloads the running values. `FleetWitnesses` holds concrete fleets for what fails.
- `BootSchema`, `BootRuns`: schema file, backup and marker, and any number of persists and boots
  that interleave step by step with crashes between any two steps.
- `Surfaces`, `SurfaceRuns`: the merge of boot and deployed schema, and the two stacked caches
  under deploys, a multi-step invalidator and multi-step loads.
- `RequestCtx`, `Route`, `UpdateBuilder`, `Grants`, `Static`, `Csp`: one custom-route request, the
  UPDATE statement, route registration and grants, static mounts, the script policy.
- `LoadGen`, `Probe`: the open-loop generator and the outage summary.
- `Text`: the string operations they share.

A concurrent protocol is a datatype of states, a total step function and runs over every sequence
of events; an event that is not enabled leaves the state alone. I/O, clocks and code outside the
repository appear as outcomes that an event or a parameter carries.

## What does not hold as documented

For each claim the members named give the condition under which the code meets it, as an
equivalence, and the input or the run on which it fails; the marker and the dropped error are
stated for every state they arise in.

- Removing an app that is not the last one unroutes the wrong domains. `AppByName`
  (pkg/fleet/lifecycle.go:117-124) returns a pointer into `mf.Apps`; `RemoveApp` shifts that slice
  and then reads the domains through the pointer, which now shows the next app
  (`FleetRuns.RemoveCoherentIffLast`, `FleetWitnesses.MisdirectedRemovalIsReachable`).
- A hot swap that straddles the edit or the removal of its app gives the domains back to the
  retired instance (`HotSwap.SwapEndCoherentIffLive`, `FleetWitnesses.StraddlingSwapIsReachable`).
- An operation can leave a fleet no start brings up again (multiapp.go:583-584 says it never does):
  exactly when it adds an app that spells a host twice, removes the only app, or declares or
  overwrites an env that reads back without a credential, with a secret another entry has, or as one
  that does not compile (`FleetRestart.StepBootsIff`, and over runs
  `FleetRestart.BootableThroughoutIff`). An edit writes before it compiles, so one that ends in an
  error can do it (`FleetMirror.UnbuildableEditStrands`, `FleetWitnesses.UncompiledEditStrands`).
- A restart does not always reload the same values (multiapp.go:597-601): exactly when the app also
  named an env file that held more, when an entry is not safe to write as a line, when a write
  failed half way, when the data directory is relative and the working directory is not the
  manifest's, or when another app's entry reads the file (`FleetMirror.StepMirrorsIff`,
  `EnvFile.TextReadsAsWholeIff`). `FleetWitnesses` has a fleet for each of the first four that does
  not start again.
- Secrets are separate in the running manifest over every run, but neither on disk
  (`FleetRestart.DiskSecretsThroughoutIff`) nor among live instances, where they are exactly as long
  as no operation goes live with a secret another instance uses (`FleetSecrets.ApartThroughoutIff`):
  an edit that changes the manifest and then fails to compile frees a secret still in use
  (`FleetWitnesses.SharedLiveSecretIsReachable`). Counting every instance that answers requests,
  also one a misdirected removal left routed, the condition is
  `FleetSecrets.RoutedApartThroughoutIff`.
- Mixed-case hosts do not always get the case-insensitive longest match when one registered domain
  nests in another (`Hosts.CaseInsensitiveIffSafe`).
- A schema that persists is not always a schema that boots (restart.go:45-47): it does if and only
  if it declares the configured roles and no resource takes the segment of a registered route
  (`Grants.PersistedStartsIff`). Those checks run after the marker is cleared, so such a deploy takes
  the service down for good, the backup unused (`BootRuns.RefusedDeployStaysDown`, against
  restart.go:15).
- A fleet deploy leaves its self-restart marker behind, so a schema broken by hand later is rolled
  back in silence instead of failing loud (`BootRuns.HotSwapLeavesMarker`).
- A load that straddles an invalidation leaves a stale write surface in place
  (`SurfaceRuns.FreshUntilNextDeployIff`, `SurfaceRuns.StraddlingLoadGoesStale`).
- The check of grants at the start does not validate what the middleware evaluates (route.go:354-357):
  a grant on a segment that authorizes itself, or with public routes only, is accepted and has no
  effect (`Grants.AcceptedGrantIsEvaluatedIff`, `Grants.PublicRouteLeavesGrantUnused`).
- `Retry-After` outlives the error it was set for (`RequestCtx.ForeignReplyCarriesRetryIff`), and a
  handler that drops the result of `Ctx.Error` commits (`Route.DroppedErrorStillCommits`).

## Model

| member | source | states |
|---|---|---|
| Hosts.WalkFindsLongest | registry.go:81-89 | the label walk answers with the entry of the longest registered label suffix, and answers nothing exactly when no label suffix is registered |
| Hosts.CaseInsensitiveIffSafe | registry.go:72-101 | on a table of lowercase hostnames every host resolves as case-insensitive longest match says if and only if no entry can hide a longer one behind a capital letter |
| Hosts.LowercaseHostAgrees | registry.go:90-97 | a lowercase host always resolves by case-insensitive longest match |
| Hosts.UnnestedTableIsSafe | registry.go:72-101 | a table without nested domains is safe for hosts of any case |
| Hosts.NestedTableMisroutesMixedCase | registry.go:90-97 | a nested table and a mixed-case host on which the two differ |
| Registry.Registry.Resolve | registry.go:77-101 | the two-pass loop answers for the name the header asks for, port and brackets off: longest registered suffix as written, else of its lowercase, else the default |
| Registry.ResolveIsLongestSuffix | registry.go:72-101 | the same of the specification, for the one name of any header |
| Hosts.NamesIff | registry.go:167-180 | every header asks for exactly one name: what stands between the brackets or before the first colon, else the header itself |
| Registry.PortIsIgnored | registry.go:176-178 | a plain host is matched as it stands, and with any port behind it resolves to the same app |
| Registry.BracketsAreStripped | registry.go:170-174 | a bracketed address is matched without its brackets, whatever follows |
| Registry.Registry.SwapApp | registry.go:115-138 | the new table is the old one with the lowercased names assigned |
| Registry.Registry.AddApp | registry.go:142 | same as a swap |
| Registry.Registry.RemoveApp | registry.go:146-152 | the new table is the old one without the lowercased names |
| Registry.Registry.Snapshot | registry.go:158-165 | one name for every domain of the loaded table, no more |
| Registry.PutTouchesOnlyNamed | registry.go:127-138 | a domain that is not named keeps its entry |
| RegistryRuns.StepKeepsInv | registry.go:77-152 | the invariant of cells, lock, readers and history survives every step of every reader and writer |
| RegistryRuns.PublishedMapsNeverChange | registry.go:109-114 | over every run a map that was published is never changed |
| RegistryRuns.EveryAnswerIsOfOneTable | registry.go:77-101 | in every interleaving each answer is the specified one for a single published table |
| RegistryRuns.ReaderLoadsCurrentTable | registry.go:78 | a reader pins the table current at its first step |
| RegistryRuns.ReaderKeepsItsTable | registry.go:77-101 | no later step makes it look at another |
| RegistryRuns.TablesFollowTheLog | registry.go:115-125 | the k-th published table is the first table with the first k mutations applied in lock order |
| RegistryRuns.NoUpdateIsLost | registry.go:115-125 | the log holds the mutation of every writer that returned, each exactly once, and the current table is the log applied in lock order |
| RegistryRuns.UnnamedDomainsKeepTheirApp | registry.go:127-152 | a domain no mutation names keeps its very entry through all of them |
| RegistryProgress.ReadersAreWaitFree | registry.go:109-114 | a reader that gets 2·length+3 steps has its answer in every schedule, whoever holds the lock or stopped half way |
| RegistryProgress.HolderFinishes | registry.go:115-125 | the lock holder can finish alone, and then the table is the old one with its whole mutation |
| RegistryProgress.EveryWriterCanFinish | registry.go:115-125 | from every state every writer can be brought to its end: no deadlock |
| Manifest.ValidateNewApp | pkg/fleet/lifecycle.go:41-114 | accepts exactly the admissible apps, env resolved from the env file and the explicit entries: fresh name, unclaimed hosts, own secret, required env, operator key apart |
| Manifest.LoadManifest | pkg/fleet/manifest.go:181-347 | the one-pass check with its seen maps accepts exactly the loadable fleets and returns each entry with trimmed lowercase hosts and the env of its file overlaid by its own |
| Manifest.LoadableHostsDiffer | pkg/fleet/manifest.go:236-251 | in a loadable fleet no host is declared twice, in one app or in two |
| Manifest.LoadableAppsAreComplete | pkg/fleet/manifest.go:195-347 | name, schema, hosts without port or path, and three credentials that differ from the fleet key |
| Manifest.BuildsOnLongSecret | app.go:251-257 | an app compiles only with a signing secret of at least 32 bytes |
| Manifest.ResolveEnv | pkg/fleet/manifest.go:253-271 | key by key: explicit entries win over those of the parsed file; nothing when the file cannot be read or parsed |
| Manifest.NewAppFitsIffDistinct | pkg/fleet/lifecycle.go:41-114 | an admissible app with its env as validated fits into a loadable fleet if and only if its hosts are pairwise different |
| Manifest.NormalAllIdempotent | pkg/fleet/lifecycle.go:41-114 | normal hosts stay as they are when normalised again |
| EnvFile.WriteAppEnvFile | multiapp.go:789-815 | writes the one text of an env: a header and one line a key in key order |
| EnvFile.ParseEnvFile | pkg/fleet/manifest.go:351-373 | the line loop computes the parse of the whole text, None at the first bad line |
| EnvFile.ParsesIff | pkg/fleet/manifest.go:357-372 | a file parses exactly when no line of it is bad |
| EnvFile.LastEntryWins | pkg/fleet/manifest.go:370 | of two lines for one key the later one counts |
| EnvFile.LineKinds | pkg/fleet/manifest.go:358-365 | blank lines and comments are skipped, and refused are exactly the other lines without a key before an equal sign |
| EnvFile.ExportIsDropped | pkg/fleet/manifest.go:358 | an export in front changes nothing |
| EnvFile.QuotedLineParses | pkg/fleet/manifest.go:366-369 | a value in single or double quotes is read without them, its white space kept |
| EnvFile.BareLineParses | pkg/fleet/manifest.go:362-366 | a bare value is the rest of the line, later equal signs included |
| EnvFile.RoundTripIffSafe | multiapp.go:789-815 | the written file parses back to the same env if and only if every key and value is safe |
| EnvFile.TextReadsAsWholeIff | multiapp.go:597-607 | the file of a part of an env reads back as the whole if and only if the part is the whole and safe |
| EnvFile.QuotedSecretIsLost | pkg/fleet/manifest.go:351-373 | a secret in quotes does not survive the round trip |
| Fleet.EditChangesOneApp | multiapp.go:663-770 | an accepted edit changes the env of one manifest entry, and its panel row exactly on success |
| Fleet.EditedEnvIs | multiapp.go:676-712 | key by key, in manifest, panel row, fresh instance and written file: unset keys are gone, set ones have their new value, every other is as before |
| Fleet.EditAcceptedIff | multiapp.go:690-706 | an edit is accepted exactly when app and row exist, something changes, and the env it would get has its credentials, an unused secret and no fleet key |
| Fleet.EditedEntryIs | multiapp.go:708-730 | what each failing write leaves in entry and file, and that the edit goes live exactly when both writes succeed and the app compiles |
| Fleet.AddedAppIs | multiapp.go:535-642 | the new entry, row and instance: name, schema, normal hosts, and as env the chosen DSN, else the explicit entries, else the env file |
| Fleet.AddedEnvFileIs | multiapp.go:597-607 | explicit entries and DSN are moved to the file generated for the name, which the entry then names instead of any other |
| Fleet.AddHappensIff | multiapp.go:501-617 | an add succeeds exactly when name, schema, database choice, manifest rules, compile and writes all do |
| Fleet.AddDropsIff | multiapp.go:571-580 | it issues a drop exactly when it fails after creating the database |
| Fleet.RemoveHappensIff | multiapp.go:826-872 | a removal happens exactly when confirmed, listed, and the file could be rewritten; it unroutes what it reports and nothing else, or changes nothing |
| Fleet.WriteTouchesOneFile | multiapp.go:789-815 | a write of an env file touches that file only, and leaves it old, whole or torn |
| Fleet.EnvPathsDiffer | multiapp.go:790-794 | two apps never share a generated file |
| FleetLifecycle.FleetPanel.AddApp | fleetpanel.go:68-72 | the panel gains the row at its end |
| FleetLifecycle.FleetPanel.RemoveApp | fleetpanel.go:74-83 | the first row of that name goes, nothing else |
| FleetLifecycle.FleetPanel.ReplaceApp | fleetpanel.go:89-99 | same slot, or a new row when there was none |
| FleetLifecycle.FleetPanel.ByName | fleetpanel.go:101-110 | finds the first row of that name or none |
| FleetLifecycle.FleetLifecycle.AppByName | pkg/fleet/lifecycle.go:117-124 | returns the slot of the first app of that name, a pointer that stays with the slot |
| FleetLifecycle.FleetLifecycle.AddApp | multiapp.go:501-642 | state, outcome and issued drop are those of the specification for every path, and a new instance runs with the DSN, the explicit entries and the env file in this order |
| FleetLifecycle.FleetLifecycle.EditApp | multiapp.go:663-770 | the same for an edit, with what a failure half way leaves; key by key the accepted env is in the manifest slot and, on success, on the panel row and in the fresh instance |
| FleetLifecycle.FleetLifecycle.ShiftOut | multiapp.go:845-850 | the append over the backing array moves the later apps down one slot |
| FleetLifecycle.FleetLifecycle.RemoveApp | multiapp.go:826-872 | the same for a removal, with the domains read through the shifted slot |
| FleetBoot.ServeFleet | multiapp.go:56-142 | for any manifest: starts exactly when every app compiles, with one row an app and the table of all domains |
| FleetBoot.RoutedToLast | multiapp.go:78-98 | of the apps that declare a domain the last one gets it, with its own router |
| FleetBoot.RoutedIsDeclared | multiapp.go:78-98 | and no other domain routes |
| FleetBoot.StartFleet | cmd/appximo/cmd_fleet.go:124-134 | a fleet comes up exactly when the file loads, databases and ports are there and every app compiles, and then the four states are coherent, the disk mirrors them, live and routed secrets are separate, the hot-swap invariants hold and the fleet starts again |
| FleetRuns.AddKeepsCoherent | multiapp.go:535-642 | an add, successful or failed, keeps panel, manifest, file and registry coherent |
| FleetRuns.FailedAddLeavesNoTrace | multiapp.go:535-617 | a failed add changes none of the four and issues a drop exactly when it freshly created the database |
| FleetRuns.FailedAddTouchesOneFile | multiapp.go:602-608 | of the env files it touches only the one generated for its name, and only when it has entries for it |
| FleetRuns.EditKeepsCoherent | multiapp.go:663-770 | so does an edit |
| FleetRuns.FailedEditKeepsLiveState | multiapp.go:691-730 | a failed edit leaves registry and panel alone, and the manifest entry with the new env exactly when it was accepted |
| FleetRuns.RemoveLastIsCoherent | multiapp.go:826-872 | removing the last app is clean |
| FleetRuns.RemovingOwnDomainsIsCoherent | multiapp.go:839-854 | unrouting an app's own domains is clean wherever it stands |
| FleetRuns.CapturedRemoveKeepsCoherent | multiapp.go:833-854 | with the domains copied before the shift every accepted removal is clean |
| FleetRuns.RunCapturedKeepsCoherent | multiapp.go:441-459 | and every run of operations stays coherent |
| FleetRuns.ReadingsAgree | multiapp.go:845-854 | the two readings give the same run as long as only the last app is removed |
| FleetRuns.RemoveUnroutesTheNextApp | multiapp.go:845-854 | removing any other app unroutes and reports the next app's domains, and the removed ones keep routing to the retired instance |
| FleetRuns.RemoveCoherentIffLast | multiapp.go:826-872 | a removal keeps coherence if and only if it is not an accepted removal before the last slot |
| FleetRuns.StepCoherentIff | multiapp.go:441-459 | an operation, successful or failed, keeps coherence exactly when it is not such a removal |
| FleetRuns.RunKeepsCoherent | multiapp.go:441-459 | every run without one stays coherent: unique names, panel equal to manifest, table exactly domain to live instance |
| FleetSecrets.RunKeepsSecrets | multiapp.go:676-706 | over every run each app of the running manifest has its credentials and JWT secrets are pairwise distinct |
| FleetSecrets.StepInSyncIff | multiapp.go:708-730 | live and manifest env stay equal exactly through operations that are not half edits |
| FleetSecrets.StepApartIff | multiapp.go:696-703 | live secrets stay pairwise distinct through an operation if and only if it does not go live with a secret another live instance uses |
| FleetSecrets.ApartThroughoutIff | multiapp.go:696-703 | the same over runs: distinct throughout if and only if no operation takes a live secret |
| FleetSecrets.StepRoutedApartIff | registry.go:132-138 | secrets of all instances the table routes to stay pairwise distinct through an operation if and only if it does not go live with one that a domain it leaves alone is routed to |
| FleetSecrets.RoutedApartThroughoutIff | registry.go:132-138 | the same over runs |
| FleetSecrets.CoherentApartAgree | multiapp.go:749-750 | in a coherent fleet the routed instances are those on the panel and the two notions agree |
| FleetSecrets.MisdirectedRemovalLetsASecretBeShared | multiapp.go:845-854 | after a misdirected removal an app added with the removed secret shares it with an instance that still answers |
| FleetSecrets.RunSeparatesLiveSecrets | multiapp.go:583-588 | without half edits no operation of a run takes a live secret |
| FleetSecrets.HalfEditLetsASecretBeShared | multiapp.go:712-730 | in every fleet, after a half edit an app added with the old secret shares it with a live instance |
| FleetWitnesses.SharedLiveSecretIsReachable | multiapp.go:712-730 | such a run exists from a fleet in order |
| FleetRestart.LoadableIff | pkg/fleet/manifest.go:218-300 | the load rules are those on names, schemas and hosts and those on credentials |
| FleetRestart.RereadForetells | multiapp.go:789-815 | what the next start reads for an entry follows from the disk before the operation and the text it writes |
| FleetRestart.CredentialsThenIff | multiapp.go:583-617 | credentials on disk stay sound through an operation if and only if no entry it declared, or that reads the file it wrote, will be read without them |
| FleetRestart.BuildsThenIff | multiapp.go:712-730 | every app on disk goes on compiling if and only if no such entry will be read with an env that does not |
| FleetRestart.StepReloadsIff | pkg/fleet/manifest.go:181-347 | the load of the next start accepts what an operation leaves except exactly after a repeated host, after the only app and after a lost credential |
| FleetRestart.StepBootsIff | multiapp.go:65-76 | the next start comes up except exactly after those and after an env that reads back as one that does not compile |
| FleetRestart.BootableThroughoutIff | multiapp.go:447-452 | a fleet can be started again throughout a run if and only if no operation strands it |
| FleetRestart.DiskSecretsThroughoutIff | pkg/fleet/manifest.go:273-283 | on disk, credentials are present and secrets separate throughout a run if and only if no operation loses one |
| FleetRestart.StepKeepsDeclared | pkg/fleet/lifecycle.go:172-253 | the file goes on declaring the running apps, each once, whatever fails |
| FleetMirror.StepMirrorsIff | multiapp.go:597-607 | the disk goes on mirroring the running manifest through exactly the operations that do not diverge |
| FleetMirror.MirrorsThroughoutIff | multiapp.go:597-607 | a restart at any point of a run reloads the running values if and only if no operation diverges |
| FleetMirror.GeneratedEntryIff | multiapp.go:789-815 | the generated file gives an app its env back if and only if nothing came from another file, every entry is safe and the next start finds it |
| FleetMirror.SamePlaceIff | multiapp.go:790-794 | the next start looks where the process writes if and only if the data directory is absolute or both directories are one |
| FleetMirror.MirroredReloadsIffLoadable | pkg/fleet/manifest.go:181-347 | the load accepts a mirrored fleet if and only if the running manifest is loadable |
| FleetMirror.MirroredStepBootsIff | multiapp.go:583-617 | from a mirrored fleet, an operation that does not diverge strands it only by a repeated host, the only app, or an accepted edit to an env that does not compile |
| FleetMirror.UnbuildableEditStrands | multiapp.go:712-730 | every such edit returns an error, leaves registry and panel, mirrors, passes the load and stops every start |
| FleetWitnesses.TwoEnvSourcesStrand | multiapp.go:602-614 | an env file and explicit entries: admitted, live, and refused by the next start |
| FleetWitnesses.FailedWriteThenAddStrands | multiapp.go:712-716 | a rotation whose write fails, then an add with the old secret: the running manifest is sound, the disk is not |
| FleetWitnesses.BlankCredentialStrands | pkg/fleet/manifest.go:362-370 | a blank admin key passes the checks and reads back empty |
| FleetWitnesses.QuotedSecretStrands | app.go:251-257 | a quoted secret of 32 characters compiles, goes live, and reads back two short of the floor |
| FleetWitnesses.UncompiledEditStrands | app.go:251-257 | a secret below the floor is accepted, written and refused, and no start comes up |
| FleetWitnesses.RelativeDataDirStrands | multiapp.go:790-794 | a relative data directory is not found again from another working directory |
| FleetWitnesses.TwoSpellingsStrand | pkg/fleet/lifecycle.go:64-79 | two spellings of one host are admitted to a fleet in order, and the next start refuses it |
| FleetWitnesses.MisdirectedRemovalIsReachable | multiapp.go:845-854 | start with one app, add a second, remove the first: a coherent fleet becomes incoherent |
| HotSwap.SwapEndCoherentIffLive | multiapp.go:425-439 | the end of a hot swap leaves a coherent fleet if and only if its instance is still on the panel |
| HotSwap.SwapServesRebuiltRouter | multiapp.go:425-439 | at its end a swap gives every domain of its app to one rebuilt router and leaves every other entry; a failed rebuild leaves the table |
| HotSwap.SwapServesNewRouter | multiapp.go:430-435 | that router served no domain in any earlier state of the run: no start, add, edit or earlier swap built it |
| HotSwap.LifeBuildsFirstRouters | multiapp.go:619-770 | an add or an edit publishes the router its fresh instance was compiled with and leaves every other entry |
| HotSwap.RunKeepsRouters | multiapp.go:425-439 | over every run each entry serves its own instance's first router or a rebuilt one that was counted |
| HotSwap.LiveAfter | multiapp.go:749-770 | an operation takes exactly the instance it retires off the panel |
| HotSwap.StepCoherentIffSound | multiapp.go:425-439 | an event breaks coherence exactly when it is a misdirected removal or the end of a retired instance's swap |
| HotSwap.CoherentThroughoutIff | multiapp.go:425-439 | a run is coherent throughout if and only if it holds neither |
| HotSwap.OrderlyRunKeepsCoherent | multiapp.go:425-439 | runs where no swap of an app is pending when it is edited or removed stay coherent |
| HotSwap.RetiredNeverRoutesAgain | multiapp.go:663-770 | in such runs a retired instance never routes again, and a domain routes exactly when an app owns it |
| HotSwap.StraddlingSwapRevivesRetired | registry.go:132-138 | every straddling swap gives all domains of the app back to the retired instance |
| HotSwap.StraddlingSwapReroutesRemoved | multiapp.go:826-872 | after a removal they had stopped routing and route again though nobody owns them |
| HotSwap.StraddleIsARun | multiapp.go:425-439 | that state is reached by begin, operation, end |
| HotSwap.BootEstablishesInv | multiapp.go:124-132 | every coherent fleet with the closures its boot wired satisfies the invariant the runs start from |
| FleetWitnesses.StraddlingSwapIsReachable | multiapp.go:425-439 | a concrete started fleet, edit and swap that end incoherent |
| BootSchema.BootFiles.Persist | restart.go:73-112 | the schema file goes from the old content to the new or stays; rejected writes nothing; valid files with a valid backup under the marker stay so |
| BootSchema.BootFiles.Recover | restart.go:181-196 | restores exactly when marker and backup exist and the write succeeds |
| BootSchema.BootFiles.Start | app.go:265-279 | an unloadable schema boots if and only if the marker exists, the backup loads and the restore succeeds, and then boots the backup; otherwise it fails loud |
| BootRuns.LocalStepKeeps | restart.go:73-112 | each atomic step of a persist or a boot keeps files and actor in order |
| BootRuns.LocalStepSparesOthers | restart.go:73-112 | and disturbs no other actor, without any lock |
| BootRuns.StepKeepsInv | restart.go:73-112 | schema valid, or down with a marker; marker implies valid backup: inductive over all steps, crashes included |
| BootRuns.RunKeepsInv | restart.go:150-200 | so it holds after every run |
| BootRuns.LoneBootRefines | app.go:265-279 | the stepwise boot ends within eight steps as the one-call load and the checks after it say |
| BootRuns.NextBootLoadsAndComesUpIff | restart.go:15-22 | after any run, a crash and a damaged schema, the next boot loads content wholly known and comes up if and only if that content passes the checks after the load and the outside world is there; the marker is gone either way |
| BootRuns.LoadsFailOnlyOnRestoreError | restart.go:181-196 | no load of any run fails loud but for a failed restore write, and the schemas refused later are exactly known ones that fail the later checks |
| BootRuns.RefusedSchemaStaysDown | app.go:874-938 | a schema that loads and does not start keeps the process down start after start, the marker cleared |
| BootRuns.RefusedDeployStaysDown | restart.go:15-22 | persist, cleared marker, refused: no number of starts brings the service back and the backup is never restored |
| BootRuns.HotSwapLeavesMarker | restart.go:226-260 | a fleet deploy leaves its marker, and a later unloadable schema then boots the one from before the deploy |
| BootRuns.FailedPersistTakesSharedMarker | restart.go:106-109 | a failing persist removes the marker of one that succeeded |
| Surfaces.MergeWritableFields | deployed_surface.go:151-163 | every boot field stays, deployed definitions win, import follows the deployed resource, the rest is boot's |
| Surfaces.SurfaceIff | deployed_surface.go:87-103 | the merged schema is the one surface that holds exactly the shared resources, each extended |
| Surfaces.DeployedSurfaces.DeployedSchema | deployed_surface.go:108-132 | cached schema, else the row, which it caches |
| Surfaces.DeployedSurfaces.Load | deployed_surface.go:87-103 | caches the surface: exactly the resources boot and deployed schema share, each extended; the empty one when there is nothing to trust; touches no other tenant |
| Surfaces.DeployedSurfaces.WriteSurfaceFor | deployed_surface.go:65-73 | answers from the cache, else a resource exactly when boot and deployed schema have it, extended by the deployed one |
| Surfaces.DeployedSurfaces.Invalidate | deployed_surface.go:78-82 | forgets one tenant |
| Surfaces.DeployedSurfaces.DeployedOnlyResources | deployed_surface.go:216-228 | exactly the deployed names the process was not booted with |
| SurfaceRuns.RunKeepsSafe | deployed_surface.go:87-132 | over every run all caches and loads hold only what was deployed at some time |
| SurfaceRuns.EveryAnswerExtendsBoot | deployed_surface.go:87-163 | every surface a write is given is empty or that of one deployed schema: exactly the resources it shares with boot, each extended by it |
| SurfaceRuns.FailedReadIsCached | deployed_surface.go:87-103 | without a row or a database a write gets the empty surface, and so do the next ones until it is dropped |
| SurfaceRuns.ReloadReadsTheRow | app.go:2329-2344 | a reload reads the row past the schema cache and leaves it there |
| SurfaceRuns.DroppedCacheIsReadAgain | deployed_surface.go:108-132 | after a drop the next reader goes to the row |
| SurfaceRuns.SettledStaysFresh | deployed_surface.go:65-132 | once settled, every answer until the next deploy holds exactly the resources boot and deployed schema share, each extended |
| SurfaceRuns.UnsettledAnswersStale | deployed_surface.go:65-132 | whatever is not settled has a calm run that answers stale |
| SurfaceRuns.FreshUntilNextDeployIff | app.go:2329-2344 | after processing, all answers are fresh if and only if nothing stale is on its way to a write |
| SurfaceRuns.ProcessedNotificationSettles | app.go:2329-2344 | with no stale load at the schema drop, any loads between the two drops leave everything settled |
| SurfaceRuns.AtomicLoadsStayCoherent | app.go:2329-2344 | with loads in one go, every processed invalidation leaves fresh answers, over any number of deploys |
| SurfaceRuns.ReversedOrderGoesStale | app.go:2329-2344 | the other order of the two drops lets one such load bring the old surface back |
| SurfaceRuns.StraddlingLoadGoesStale | deployed_surface.go:87-132 | a load that straddles the invalidation leaves a stale surface with everything processed |
| RequestCtx.RequestCtx.ReadBody | ctx.go:915-934 | the same capped bytes however often it is called |
| RequestCtx.RequestCtx.Json | ctx.go:1107-1115 | buffers the reply, or reports the encoder's error and changes nothing |
| RequestCtx.RequestCtx.Error | ctx.go:1117-1138 | buffers the error, as 503 with the retry signal for a 5xx over an unavailable database |
| RequestCtx.RequestCtx.ServeFile | ctx.go:1045-1071 | registers one file when nothing is buffered or registered |
| RequestCtx.LastReplyWins | ctx.go:1107-1138 | the last call that buffered a reply decides it |
| RequestCtx.FirstFileWins | ctx.go:1045-1071 | the registered file is that of the first well-formed ServeFile before any reply |
| RequestCtx.RetryAfterIff | ctx.go:1117-1138 | the retry signal is set exactly when some Error call was reclassified |
| RequestCtx.ForeignReplyCarriesRetryIff | ctx.go:1117-1138 | a reply that was not reclassified carries it if and only if an earlier call it replaced was |
| RequestCtx.RetryAfterOutlivesItsError | route.go:613-630 | a later 200 still carries it |
| Route.CustomHandler | route.go:497-606 | the handler over the mutable Ctx produces the specified trace |
| Route.FlushSendsLastReply | route.go:608-630 | a flushed request answers status and body of its last buffering call, and asks for a retry exactly when some error of the handler was over an unavailable database |
| Route.FlushWithoutReply | route.go:608-620 | with nothing buffered and no file it answers 204 without a body |
| Route.FlushServesFirstFile | ctx.go:1073-1105 | with nothing buffered it streams the first file registered, or answers that it is missing or cannot be read |
| Route.ReturnedErrorIs | ctx.go:1045-1138 | what a handler hands on from its call, over the calls before it: an encoder error, the handled error, or a file call refused after a reply, after a file, or off a byte route |
| Route.UnstartedAnswers | route.go:497-549 | the four refusals before a transaction with their statuses, and that any other request begins one |
| Route.BrokenTransactionAnswers | route.go:559-592 | a failing search path or commit answers 500, and nothing is committed or dropped |
| Route.FaultAnswers | route.go:660-725 | which faults each status stands for, and that only an unavailable database asks for a retry |
| Route.CommitIffHandlerReturnedNil | route.go:571-592 | a commit is tried exactly when the handler returned nil, once and after it |
| Route.EveryTransactionEnds | route.go:531-592 | every begun transaction ends in one commit or one rollback, panics included |
| Route.ExactlyOneResponse | route.go:497-730 | one response on every path that does not panic |
| Route.StreamsOnlyAfterCommit | route.go:587-630 | file bytes go out only after the commit, with nothing buffered, and are the registered file |
| Route.CacheDropIffCommittedWrite | route.go:587-604 | the cache is dropped exactly on a committed write, after the commit and before the response |
| Route.HandledErrorIsBuffered | route.go:634-659 | an error made by Ctx.Error left a reply to flush |
| Route.DroppedErrorStillCommits | route.go:571-606 | dropping that error commits and answers it |
| UpdateBuilder.BuildSet | ctx.go:822-847 | each column once, each placeholder on its own argument, and applied to any row it stores data plus stamped refresh columns |
| UpdateBuilder.UpdateStatement | ctx.go:822-847 | every column of any row: the data, else now if refreshed, else its old value |
| UpdateBuilder.EvaluateIgnoresLaterArgs | ctx.go:848-866 | arguments appended later for conditions and guards leave what every part stores |
| UpdateBuilder.AutoRefreshColumns | pkg/schema/auto.go:123-132 | the refreshed columns, sorted, none twice |
| Grants.ValidateRoute | route.go:168-231 | accepts exactly well-shaped routes that collide with no resource and no seen route |
| Grants.App.Register | app.go:1217-1231 | appends exactly such a route, before the start |
| Grants.RegisterAllIff | app.go:1217-1231 | a binary's registrations all succeed exactly for well-shaped, collision-free, pairwise different routes |
| Grants.KeyInjective | route.go:180-183 | the seen key tells apart exactly different verb and path pairs |
| Grants.ValidateRouteGrants | route.go:266-339 | with routes, refuses exactly the dead grants and names each, where a grant lives when its path and methods are registered; with none, warns of every grant |
| Grants.ActionIff | route.go:354-387 | the two tables between methods and actions are inverse to each other |
| Grants.SegmentIff | route.go:341-353 | a path is of a segment exactly when it is /api/ and that segment, or goes on behind it |
| Grants.GrantsServedIff | route.go:266-339 | grants are served exactly when each has a route on its path and each action but * one of its methods |
| Grants.SegmentIsEnforcedIff | pkg/rbac/middleware.go:155-166 | boot check and middleware read the same resource off a path if and only if its segment does not authorize itself |
| Grants.ActionIsEnforced | pkg/rbac/middleware.go:168-185 | and the same action off every verb a route can have, HEAD as GET |
| Grants.AcceptedGrantIsEvaluatedIff | pkg/rbac/middleware.go:47-61 | an accepted grant is evaluated for some request if and only if its segment is enforced and a route there that is not public has one of its methods |
| Grants.PublicRouteLeavesGrantUnused | pkg/rbac/middleware.go:47-54 | a grant on a public route is accepted and evaluated for nothing |
| Grants.MoreRoutesKeepGrants | route.go:288-329 | acceptance survives more routes |
| Grants.FirstRouteCanKillGrants | route.go:250-265 | except from no routes at all |
| Grants.PersistBootSchema | restart.go:210-224 | lets through exactly valid schemas whose grants the running routes serve |
| Grants.PersistedPassesBothGates | restart.go:202-224 | an accepted schema passes the boot gate and the grant check at the next start |
| Grants.PersistedStartsIff | restart.go:45-47 | and starts if and only if it declares the configured roles and takes no segment of a registered route |
| Grants.PersistedSchemaCanRefuseToStart | app.go:1217-1231 | any binary with a route under a segment that can name a resource has a schema that persists and does not start |
| Grants.RoleLessSchemaRefusesToStart | app.go:874-883 | any binary with a configured signup, social login or chat role has one |
| Grants.PublicRoleIsDeclaredIff | app.go:874-938 | the anonymous surface counts as a role for signups and social logins and not for the chat channel |
| Grants.DeclaredRolesSuffice | app.go:874-938 | configured roles the schema declares are enough |
| Grants.UnreachableSegmentsAreSafe | pkg/schema/validator.go:86-91 | with no route under such a segment a persisted schema starts again if and only if it declares the configured roles |
| Static.IsEngineOwnedPath | static.go:406-423 | owned exactly under a reserved prefix or behind its dotted form |
| Static.ValidateStaticMounts | static.go:226-306 | accepts exactly mountable, pairwise different mounts, compiles each once, longest prefix first |
| Static.TrailingSlashIsIgnored | static.go:242 | a trailing slash makes no other mount |
| Static.EngineKeepsItsSurfaces | static.go:146-155 | the engine owns each of its surfaces and everything under them |
| Static.Matches | static.go:332-351 | true exactly when some mount claims the path |
| Static.ServesRoot | static.go:376-386 | for GET and HEAD it serves exactly what the root mount claims, otherwise nothing |
| Static.FreePrefixStaysFree | static.go:388-418 | an accepted prefix cannot become engine-owned by extension |
| Static.MatchedPathIsNeverEngineOwned | static.go:319-351 | no matched path belongs to the engine, whatever mounts were accepted |
| Static.RootMountMatchesWhatItServes | static.go:319-386 | with a root mount the matcher is exactly what it serves |
| Csp.Walk | static_csp.go:62-105 | goes through exactly when no element has an event handler, and then has gathered the tree's hashes in document order, none twice |
| Csp.InlineScriptCsp | static_csp.go:52-110 | sources exactly when a hash can cover the document, and then those of all inline scripts |
| Csp.HashedIffInlineScript | static_csp.go:74-98 | hashed are exactly the non-empty bodies of scripts without src |
| Csp.HashableIff | static_csp.go:62-105 | a hash covers a document exactly when it parses and no element anywhere in it has an event handler |
| Csp.PreorderHoldsTheTree | static_csp.go:62-105 | the walk visits every node of the tree and no other |
| Csp.PreorderIsDocumentOrder | static_csp.go:62-105 | root first, then the trees of the children in their order |
| Csp.HashesJoin | static_csp.go:74-98 | hashes come in the order of the scripts |
| Csp.TextOfJoin | static_csp.go:74-90 | a body is its text children one after the other |
| Csp.FirstOccurrencesInOrder | static_csp.go:92-97 | dropping repeats keeps the order of first occurrence |
| Csp.FirstOccurrencesMembers | static_csp.go:92-97 | and loses no value and keeps none twice |
| Csp.HardenedStaticCsp | static_csp.go:113-141 | the policy changes only in the first weak script directive, and only for a document hashes cover |
| Csp.HardenedLists | static_csp.go:125-141 | the new directive allows the site and then each hash, and nothing else |
| LoadGen.StepKeepsInv | cmd/appximo/cmd_drill.go:860-962 | every counter is a count of goroutines and skipped ticks, after each step of any of them |
| LoadGen.InFlightStaysWithinCap | cmd/appximo/cmd_drill.go:891-933 | in every interleaving the requests in flight stay between 0 and the cap, which is 64 or four times the rate |
| LoadGen.ReturnConserves | cmd/appximo/cmd_drill.go:894-962 | at return nothing is in flight, statuses sum to sent plus skipped, answers plus errors too, one latency an answer, every 429 through the door its body names, no code but 0 counted more often than requests sent |
| LoadGen.ReportMatchesHistory | cmd/appximo/cmd_drill.go:894-962 | against the events of the run: every request sent was answered once, each code counted as often as answers carried it, each door as often as a 429 named it, errors as often as there was no answer or the tick was skipped |
| LoadGen.LatenciesAreTimed | cmd/appximo/cmd_drill.go:929-958 | the latencies are exactly the times measured, in order |
| LoadGen.CanAlwaysReturn | cmd/appximo/cmd_drill.go:894-962 | from every state there is a way on to a return |
| LoadGen.TotalBump | cmd/appximo/cmd_drill.go:869-872 | counting a code adds one to the sum of the table |
| Probe.ProbeSummary | cmd/appximo/cmd_drill.go:1579-1604 | counts by code, failure latencies in order, and, unless a sample has the zero time, the times of first failure, last failure and the success after it as quantifiers describe them |
| Probe.OutageWindowHoldsEveryFailure | cmd/appximo/cmd_drill.go:1576-1578 | in time order every failure lies in the outage window, and there is no end exactly when the last sample failed |
| Probe.FailureTimesCount | cmd/appximo/cmd_drill.go:1618-1620 | no failure latencies exactly when every code is from 200 to 399 |
| Probe.FailureTimesAre | cmd/appximo/cmd_drill.go:1591-1600 | the failure latencies are those of the samples with codes under 200 or from 400 on, all of them, in order |
| Probe.NumberCounts | cmd/appximo/cmd_drill.go:1583-1590 | each count is the number of samples with that code |
| Text.WhiteSpaceIs | pkg/fleet/manifest.go:357-370 | a character is trimmed exactly when it is Unicode white space |
| Text.FoldingIs | registry.go:90-97 | folding moves ASCII letters and leaves everything else |
| Text.ByteLenOne | app.go:251-257 | a length is counted in bytes of UTF-8 |
| Text.ByteLenJoin | app.go:251-257 | and adds up over a string |

## Left out

- HTTP, chi routing, pgx, Redis, Docker and mail: plumbing around the modelled decisions; their outcomes are parameters.
- Schema loading and validation, HTML parsing, SHA-256, UUID parsing and identifier quoting: uninterpreted or given.
- Case folding beyond ASCII letters: hostnames and HTTP methods are ASCII.
- Wall-clock behaviour: removal grace, restart delay, ticker rates and timeouts appear only as an order of events.
- Process shutdown of a fleet, which iterates the apps of the boot: release of hot-added apps is not modelled.
- The interior of a lifecycle operation against a hot swap: an operation is one step in `HotSwap`, since each publishes to the table once and a swap touches nothing else; a swap of an instance before its first publish is not modelled.
- Manifest.LoadManifest: takes the decoded entries, with schema paths resolved; the JSON text and the fleet's own settings, which no operation changes (defaults, operator email, database instances), are not modelled.
- Schema files that change under a running fleet: what compiles with which env is one function over a run; a deploy between two operations is the subject of `BootRuns`.
- The refusals of `New` that depend on neither schema nor manifest (database, ports, process settings) are one flag of each compile or boot.
- File entries carry their hosts as a load normalises them; a file that spells them otherwise loads to the same fleet.
- Paths are joined, not cleaned, and links are not followed: two spellings of one env file count as two files.
- The listener and what follows it in `ServeFleet`.
- The schema file an add writes before it is refused: env files, the four states and the database are tracked, schema files are not.
- A schema file edited by hand while the process is up: `BootRuns` damages it only while the process is down and a self-restart is under way.
- Response cache contents and the tenant's response-cache drop in the invalidator: no property depends on them.
- UpdateBuilder.UpdateStatement: SET parts are column and placeholder, not SQL text; row conditions and transition guards appended later are not modelled.
- The log lines, warnings' wording and trace records of route errors.
- Probe.ProbeSummary: says nothing of the outage when a sample has the zero time, which stands for none and which the recording transport never makes.
- The restart flag and the re-exec of `requestRestart`: one compare-and-swap and the operating system.
- Grants.AcceptedGrantIsEvaluatedIff: speaks of requests on a route's own path; a pattern whose first segment is a parameter is not matched against other paths.
- HotSwap.SwapServesNewRouter: a router is known by which rebuild returned it; what schema it was rebuilt from, and the panel's count of swaps, are not modelled.
- Percentiles, the rendered report of the probe and the console: user interface.
- `publicRoutePaths`, rate-limit refill, ETags and file serving below the ownership decision: would only add easy members.
