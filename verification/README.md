# Verified model of the worker runtime's control plane and text transducers

This project models the stateful core of the `workers_projects_runtime` package in Dafny and proves what that core is
for. Two parts are covered.

**The capability control plane.** A versioned registry of library packages with pinned dependencies
(`Library`, `Capabilities`), the manifest normaliser in front of it (`Manifests`, `ManifestNormalForm`,
`ManifestMeaning`, `SortedTexts`), version precedence (`SemanticVersions`, and on the texts themselves `VersionTexts`),
the depth-first install planner (`InstallPlan`) and the breadth-first template walk over the same graph
(`TemplateWalk`), the structural bundle merge and activation probe (`KeyedLists`, `Bundles`, `BundleMeaning`), the
review-then-confirm protocol with its per-workspace stack of grants (`Capabilities`, `CapabilityInvariants`,
`CapabilityRuns`, `CapabilityStacks`, `CapabilityReviews`, `CapabilityOperations`, and the store class in
`CapabilityStore`), exclusive provider leases (`ProviderLeases`, `LeaseOperations`), idempotent workspace duplication as
a table (`Duplications`, `DuplicationOutcomes`) and as driven by executors that may crash (`DuplicationExecutors`,
`DuplicationRecovery`), and the broker's registry of active grants (`CapabilityBroker`).

**Text transducers.** The feeling-capsule splitter and the canonical instruction bundle (`FeelingCapsules`,
`FeelingProjection`, `CanonicalInstructions`, `CanonicalEnvelopes`), the refresh of the Codex configuration
(`CodexConfig`, `CodexHeaders`, `CodexLineBreaks`), and the longest-first secret scrubber with its two-pass artifact
scrub (`Redaction`, `RedactionKeeps`, `DurableCapture`, `ReservedFields`, `ArtifactScrub`, `ArtifactSecrets`,
`SecretScrubber`).

How the model is laid out:

- A store is a value, `State`, and each public method a function from state to `Result<State, Refusal>`, because each
  runs inside one `BEGIN IMMEDIATE` transaction: an error leaves the state as it was. The classes
  (`ControlPlaneStore`, `ProviderAccountStore`, `DuplicationTable`, `Planner`, `GrantRegistry`,
  `DurableSecretScrubber`) do the same work by updating fields in loops, and each method's contract equates the new
  fields with the function of the old ones; the theorems are then about those functions and about runs of them.
- A run is a sequence of states and events. Theorems about "every reachable state" quantify over all runs from the empty
  store; the clock advances by an arbitrary non-negative amount before each event and never goes back, which the
  source's ordering by `created_at`, then rowid, needs as well.
- The modelled operations only ever append grants, changes and library rows, so a row's position stands for its id. A
  workspace is named by the triple (tenant, owner, worker) every query filters on.
- Safety over runs says nothing about a store that refuses everything. `CapabilityReviews`, `CapabilityOperations`,
  `LeaseOperations`, `DuplicationOutcomes` and `DuplicationRecovery` therefore say, over the tables and without the
  functions that carry the operations out, exactly when each operation goes through and what it leaves; likewise
  `VersionTexts`, `ManifestMeaning`, `BundleMeaning`, `CanonicalEnvelopes`, `CodexHeaders` and `ReservedFields` say what
  texts and JSON values are read as by their spelling, fields and paths.
- Where a property needs a condition, an input that breaks it otherwise is proved to do so; an equivalence names the
  exact condition:
  - The Codex configuration is a string, so a later plan item replaces an earlier one's servers (`CodexSurvivesIff`);
    likewise a nested `mcpServers` object hides flat entries (`ClaudeServersAfterMerge`).
  - A value of another kind between two that would merge hides the first (`ScalarHidesEarlierObject`,
    `ScalarHidesEarlierFiles`); `MergeBundlesAssociativeIff` says exactly when merging is associative all the same.
  - `files: {}` is accepted in a manifest, and merging it loses every file required before it
    (`EmptyFilesLoseRequired`); `RequirementsSurviveIff` says exactly which later bundles keep them.
  - Two spellings of one prerelease number, such as `01` and `1`, each compare below the other
    (`PaddedSpellingsClash`); `CompareIsPrecedenceIff` says that this is the only disagreement with section 11 of
    Semantic Versioning 2.0.0, and `CompareOppositeIff` the same of swapping the arguments.
  - Completing a duplication checks the row's status but not which reservation it completes, so a takeover while the
    first executor still lives gives one key two workspaces (`TakeoverWhileAliveYieldsTwo`).
  - Refreshing the Codex configuration twice equals refreshing it once exactly when the appended text, stripped of the
    servers it declares, leaves nothing (`RefreshTwiceIff`); quoted server names fail that test.
  - A learned value that contains a bracket, or that occurs in a redaction marker, can come back through a marker
    (`BracketReappears`, `CleansItselfIff`).
  - Two broker binds of one worker and run that overlap lose a grant without revoking it (`OverlapLosesGrant`); a grant
    is turned away exactly when one is stored while another of its key is in the table (`NoConflictIff`).

Every line number below is in the repository at the modelled commit.

## Model

| member | source | states |
|---|---|---|
| InstallPlan.PlanExistsIff | runtime_phase1/src/workers_projects_runtime/control_plane.py:2086-2167 | On any catalog, cyclic ones included, the planner terminates and succeeds exactly when everything reachable from the root is available, supports the profile and has resolvable pins, no cycle is reachable, and no two paths ask for different scopes of one identity |
| InstallPlan.PlanInstallsAll | runtime_phase1/src/workers_projects_runtime/control_plane.py:2098-2167 | A plan holds exactly the reachable rows, each once, every dependency before its dependent with the pinned scopes, and ends with the root and all its scopes |
| InstallPlan.SoundPlanOutcome | runtime_phase1/src/workers_projects_runtime/control_plane.py:2098-2167 | Where publishing and disabling kept the catalog sound, planning an available compatible root fails exactly on disagreeing scopes, and with that error |
| InstallPlan.SoundInstallableIff | runtime_phase1/src/workers_projects_runtime/control_plane.py:2120-2150 | In a sound catalog the graph below an available root is installable exactly when scopes agree on all paths |
| InstallPlan.Planner.Visit | runtime_phase1/src/workers_projects_runtime/control_plane.py:2098-2164 | The recursive visit, mutating visiting, visited, planned scopes and plan, computes the specification's progress or its error |
| InstallPlan.InstallPlanFor | runtime_phase1/src/workers_projects_runtime/control_plane.py:2086-2167 | The planner run from its entry point returns the specified plan or error |
| TemplateWalk.ValidateTemplateLibraries | runtime_phase1/src/workers_projects_runtime/control_plane.py:1724-1787 | The work list, popped in front and extended at the back, terminates on any graph and computes the specified walk |
| TemplateWalk.WalkReaches | runtime_phase1/src/workers_projects_runtime/control_plane.py:1730-1787 | What the walk approves from one root is exactly what the root reaches, each row once |
| TemplateWalk.WalkPermutesPlan | runtime_phase1/src/workers_projects_runtime/control_plane.py:1730-1787 | Whenever the depth-first planner plans a root, the breadth-first walk succeeds on it and approves a permutation of the same rows |
| TemplateWalk.WalkSucceeds | runtime_phase1/src/workers_projects_runtime/control_plane.py:1740-1783 | Over an installable graph no pending list of reachable pins makes the walk fail |
| TemplateWalk.WalkSound | runtime_phase1/src/workers_projects_runtime/control_plane.py:1730-1787 | From any point of the walk, what it returns is available, reachable, distinct, closed under pins, and extends what was approved before |
| TemplateWalk.RootApprovedFirst | runtime_phase1/src/workers_projects_runtime/control_plane.py:1750-1783 | The root is approved first with the scopes asked of it, all its own when none are; they are within the manifest's, and every other approved item carries the scopes of some reachable pin of it in the same way |
| TemplateWalk.WalkScopes | runtime_phase1/src/workers_projects_runtime/control_plane.py:1750-1783 | From any point of the walk, each approved item is asked for by the root's reference or a reachable pin, which fixes its row, identity and scopes |
| KeyedLists.MergeByIndex | runtime_phase1/src/workers_projects_runtime/control_plane.py:111-125 | Overwriting slots of the prior list through an index of known paths is the entry-by-entry merge |
| KeyedLists.MergeAssociative | runtime_phase1/src/workers_projects_runtime/control_plane.py:111-125 | Merging file lists is associative, whatever they hold, blank and repeated paths included |
| KeyedLists.MergeIdempotentIff | runtime_phase1/src/workers_projects_runtime/control_plane.py:111-125 | A list merged into itself is unchanged exactly when no entry has a blank path |
| KeyedLists.LeadsIff | runtime_phase1/src/workers_projects_runtime/control_plane.py:111-125 | Merging over a prior list comes to the same as merging over none exactly when the prior paths are given, distinct, and in order the first ones of the incoming list merged alone |
| BundleMeaning.MergeLatest | runtime_phase1/src/workers_projects_runtime/control_plane.py:111-125 | For each path, the last entry of the merged list is the newcomer's last one with it, else the prior list's last one, else there is none |
| Bundles.MergeBootstrap | runtime_phase1/src/workers_projects_runtime/control_plane.py:106-130 | The copy updated key by key, recursing into objects, is the structural merge |
| BundleMeaning.MergeAt | runtime_phase1/src/workers_projects_runtime/control_plane.py:106-130 | At every path of keys, the merged bundle holds what the later one holds there unless both hold objects or, within shared objects, the later holds a file list; where the later says nothing the earlier stays, and nothing is left below what the later replaces |
| Bundles.MergeBundlesAssociativeIff | runtime_phase1/src/workers_projects_runtime/control_plane.py:106-130 | Merging three bundles is associative exactly when, at every key the later two share, a middle value of a kind that blocks merging stands between a file list that leads the last one, or an object that the last one covers |
| Bundles.CoversIff | runtime_phase1/src/workers_projects_runtime/control_plane.py:126-129 | A later value leaves nothing of an earlier one exactly when it covers it: all keys again, recursively |
| Bundles.MergeBundlesAssociative | runtime_phase1/src/workers_projects_runtime/control_plane.py:106-130 | In particular it is associative whenever no middle bundle changes the kind of a key the outer two could merge |
| Bundles.ScalarHidesEarlierObject | runtime_phase1/src/workers_projects_runtime/control_plane.py:126-129 | A null between two objects breaks associativity exactly when the last object does not cover the first |
| Bundles.ScalarHidesEarlierFiles | runtime_phase1/src/workers_projects_runtime/control_plane.py:111-129 | A null between two file lists breaks it exactly when the first list does not lead the last |
| Bundles.MergeBundlesIdempotentIff | runtime_phase1/src/workers_projects_runtime/control_plane.py:106-130 | A bundle merged into itself is unchanged exactly when all its file entries, at every depth, have paths |
| Bundles.MergeFilePaths | runtime_phase1/src/workers_projects_runtime/control_plane.py:111-129 | The merged file paths are the union of both sides', the first side's when the newcomer has no `files`, and none when it holds anything but a list there |
| BundleMeaning.ProbePassesIff | runtime_phase1/src/workers_projects_runtime/library_registry.py:451-474 | A probe passes exactly when `files` can be looked through, each required file is the trimmed path of some entry, each required key is there, and each required server has an entry in the Claude configuration or a bare or double-quoted header somewhere in the Codex text |
| Bundles.RequirementsSurviveIff | runtime_phase1/src/workers_projects_runtime/library_registry.py:451-474 | Required keys that passed a probe survive any further merge; required files survive exactly when the newcomer has a list or nothing under `files`, or none were required |
| Bundles.CodexSurvivesIff | runtime_phase1/src/workers_projects_runtime/control_plane.py:126-129 | A declared Codex server survives a later merge exactly when the newcomer has no Codex text or declares it again |
| Bundles.ClaudeServersAfterMerge | runtime_phase1/src/workers_projects_runtime/library_registry.py:463-467 | Claude servers accumulate, except that a nested form on one side hides flat entries on the other |
| SemanticVersions.NewerIsStrictOrder | runtime_phase1/src/workers_projects_runtime/library_registry.py:55-80 | On every accepted version, padded or not, "newer" is irreflexive, asymmetric and transitive |
| SemanticVersions.CompareIsPrecedenceIff | runtime_phase1/src/workers_projects_runtime/library_registry.py:55-80 | On any two accepted versions the comparison agrees, in both directions, with the precedence of section 11 of Semantic Versioning 2.0.0, defined independently, exactly when the first prerelease identifiers that differ are not two spellings of one number |
| SemanticVersions.CompareIsPrecedence | runtime_phase1/src/workers_projects_runtime/library_registry.py:55-80 | In particular on versions without padded prerelease numbers, where it is also total and zero only for equal versions |
| SemanticVersions.CompareOppositeIff | runtime_phase1/src/workers_projects_runtime/library_registry.py:67-80 | Swapping the arguments negates the result exactly when no padding clash decides it; the result is zero exactly for equal versions |
| SemanticVersions.PaddedSpellingsClash | runtime_phase1/src/workers_projects_runtime/library_registry.py:72-73 | For any accepted release, its numeric prerelease and the zero-padded spelling of it are both accepted and each compares below the other |
| VersionTexts.ShowReads | runtime_phase1/src/workers_projects_runtime/library_registry.py:56-63 | The decimal spelling of every number is a numeral and is read back as that number |
| VersionTexts.ReleaseReads | runtime_phase1/src/workers_projects_runtime/library_registry.py:56-63 | Three dotted numerals are accepted and read as their values in that order, without prerelease |
| VersionTexts.PrereleaseReads | runtime_phase1/src/workers_projects_runtime/library_registry.py:56-63 | Followed by a hyphen and dotted identifiers, they are read as the same values and those identifiers in order |
| VersionTexts.AcceptedIsSpelled | runtime_phase1/src/workers_projects_runtime/library_registry.py:25 | Every accepted version is spelled so: three dotted numerals, alone or before a hyphen and allowed characters |
| VersionTexts.SpelledPrecedenceIff | runtime_phase1/src/workers_projects_runtime/library_registry.py:55-80 | On spelled versions the comparison of the texts is precedence by number and identifier, both ways round, exactly when the first identifiers that differ do not spell one number |
| VersionTexts.ReleasesInOrder | runtime_phase1/src/workers_projects_runtime/library_registry.py:55-66 | On releases the sign of the comparison is that of the lexicographic order of the three numbers |
| Manifests.CleanStrings | runtime_phase1/src/workers_projects_runtime/library_registry.py:83-92 | The loop collects trimmed texts or refuses the first blank, long or repeated one |
| Manifests.NormaliseDependencies | runtime_phase1/src/workers_projects_runtime/library_registry.py:383-416 | The loop pins each dependency against those before it, or refuses |
| ManifestNormalForm.ValidateTwice | runtime_phase1/src/workers_projects_runtime/library_registry.py:327-441 | Validating a normalised manifest returns that manifest unchanged, whatever the URI, schema, bundle, hash, credential and size checks are |
| ManifestNormalForm.DependenciesTwice | runtime_phase1/src/workers_projects_runtime/library_registry.py:383-416 | Normalised dependencies normalise to themselves |
| ManifestNormalForm.DependenciesDistinct | runtime_phase1/src/workers_projects_runtime/library_registry.py:398-400 | No normalised dependency names the package itself and no two name the same package |
| ManifestNormalForm.ProbeTwice | runtime_phase1/src/workers_projects_runtime/library_registry.py:302-324 | A normalised health probe normalises to itself |
| ManifestNormalForm.ValidIsAcceptable | runtime_phase1/src/workers_projects_runtime/library_registry.py:327-441 | A validated manifest gives a registry row on which the control plane can rely: a parseable version, profiles each with a bundle, no self-dependency |
| ManifestNormalForm.FilesListedIff | runtime_phase1/src/workers_projects_runtime/library_registry.py:221-230 | An accepted bundle has a list under `files`, if anything, exactly unless it has a falsy value of another kind there |
| ManifestNormalForm.EmptyFilesLoseRequired | runtime_phase1/src/workers_projects_runtime/library_registry.py:221-223 | A bundle whose `files` is an empty object is accepted, its merge can be probed, and every file required before it is lost |
| ManifestMeaning.ManifestPasses | runtime_phase1/src/workers_projects_runtime/library_registry.py:327-441 | A manifest whose fields say what they must, spelled out field by field, has a normal form with the same fields saying the same (identity, versions, profiles, scopes, pins, provenance, probe), which is returned unless it shows credentials or is too large |
| ManifestMeaning.OthersRefused | runtime_phase1/src/workers_projects_runtime/library_registry.py:327-441 | Everything else is refused |
| ManifestMeaning.DependenciesIff | runtime_phase1/src/workers_projects_runtime/library_registry.py:383-416 | Dependencies are accepted exactly when they are at most 32 pins of different packages other than the own one, and each is kept in place with its identity and exactly its scopes |
| ManifestMeaning.ProbeIff | runtime_phase1/src/workers_projects_runtime/library_registry.py:302-324 | A probe is accepted exactly when its requirements can be read, are spelled as files, bundle keys and servers, and are not all empty; the normal form requires the same |
| ManifestMeaning.ScopeIff | runtime_phase1/src/workers_projects_runtime/library_registry.py:26 | A scope is two labels of at most 64 characters around one colon |
| ManifestMeaning.CleanIff | runtime_phase1/src/workers_projects_runtime/library_registry.py:83-92 | A list is cleaned exactly when its entries say something short enough, no two the same, and then to what they say, in order |
| ManifestMeaning.ActivationIff | runtime_phase1/src/workers_projects_runtime/library_registry.py:196-232 | An activation is accepted exactly when it offers every profile, as the common bundle or as the profile's own but not both ways, a bundle with allowed keys and acceptable files and servers |
| SortedTexts.SortedTwice | runtime_phase1/src/workers_projects_runtime/library_registry.py:318-324 | Sorting a set of texts again changes nothing and leaves no duplicates |
| CapabilityInvariants.RestoreAllowedIff | runtime_phase1/src/workers_projects_runtime/control_plane.py:1391-1424 | Where availability is closed, the restore walk refuses exactly when a direct dependency is missing |
| CapabilityInvariants.NextKeeps | runtime_phase1/src/workers_projects_runtime/control_plane.py:2473-2916 | Every event, successful or refused, keeps the whole invariant: sound catalog, one active grant per package and workspace, recorded plans, upgrade lineage, reviewed changes |
| CapabilityInvariants.ReachableHolds | runtime_phase1/src/workers_projects_runtime/control_plane.py:206-222 | Every state of every run has the invariant its first state has |
| CapabilityInvariants.StatusKeepsPlanAvailable | runtime_phase1/src/workers_projects_runtime/control_plane.py:1425-1456 | A status change that passes the grant guard and the dependents guard leaves every item of an active grant's plan available |
| CapabilityInvariants.NewestIsLastActive | runtime_phase1/src/workers_projects_runtime/control_plane.py:3005-3012 | With creation times in order, the row ordered last by time and rowid is the last active row |
| InstallPlan.DependenciesDescend | runtime_phase1/src/workers_projects_runtime/control_plane.py:1157-1185 | In a catalog published in order, any path of dependencies leads strictly down the table, over rows of every status |
| CapabilityRuns.ReachableAcyclic | runtime_phase1/src/workers_projects_runtime/control_plane.py:1157-1185 | In every reachable catalog no row depends on itself along any path, disabled and removed rows included |
| CapabilityRuns.ReachablePlanOutcome | runtime_phase1/src/workers_projects_runtime/control_plane.py:2098-2167 | In every reachable catalog, planning an available root for a supported profile fails only on disagreeing scopes, and does so exactly then |
| CapabilityRuns.ActiveGrantStaysAvailable | runtime_phase1/src/workers_projects_runtime/control_plane.py:1425-1456 | In every reachable state each item of the recorded plan of an active grant is available |
| CapabilityRuns.LineageNarrows | runtime_phase1/src/workers_projects_runtime/control_plane.py:2277-2322 | Along any chain of upgrades the version strictly increases, the scopes and the scope union over the plan never widen, and the rollback bundle stays the same |
| CapabilityRuns.ConfirmedAtMostOnce | runtime_phase1/src/workers_projects_runtime/control_plane.py:2493-2500 | In any run a change is confirmed by at most one event |
| CapabilityRuns.InstalledAsReviewed | runtime_phase1/src/workers_projects_runtime/control_plane.py:2526-2563 | A confirmed library change is applied before it expires, within 30 minutes of review, and installs exactly the rows, manifests, order and scopes reviewed, however the catalog moved in between |
| CapabilityReviews.PreparedIff | runtime_phase1/src/workers_projects_runtime/control_plane.py:2169-2451 | A library request is reviewed exactly when the workspace is there, the plan exists, an enable is the first of its package, the scopes asked are permitted by manifest and copied review, and an upgrade names the newest active grant, of the same package, older, and no narrower; recorded are the request's workspace, kind, row and token, the scopes it resolves to, the plan as it stands, and the expiry |
| CapabilityReviews.SwitchPreparedIff | runtime_phase1/src/workers_projects_runtime/control_plane.py:2323-2451 | An account switch is recorded, with its selection, token and expiry, exactly when the workspace is there |
| CapabilityReviews.ScopesRefusedIff | runtime_phase1/src/workers_projects_runtime/control_plane.py:2228-2270 | Of an otherwise proposable request the scopes are refused exactly when a copied review exceeds the manifest, or is not asked for as it is, or, without one, the request exceeds the manifest; each with its own error |
| CapabilityReviews.EnableConfirmedIff | runtime_phase1/src/workers_projects_runtime/control_plane.py:2493-2722 | An enable is confirmed exactly when its owner presents its token in time, planning gives the rows, manifests and scopes reviewed, no grant of the package is active, and every prefix of the plan merged onto the bundle passes its last item's probe; it leaves one new grant with the reviewed scopes over the merged bundle, and the change resolved |
| CapabilityReviews.UpgradeConfirmedIff | runtime_phase1/src/workers_projects_runtime/control_plane.py:2606-2722 | An upgrade is confirmed exactly when, beside that, its target is the newest active grant and of the package, the bundle is as the target left it, nothing widens, and the probes pass from the target's rollback bundle; the target is then revoked and linked |
| CapabilityReviews.SwitchConfirmedIff | runtime_phase1/src/workers_projects_runtime/control_plane.py:2736-2908 | An account switch is confirmed exactly when presented in time for a workspace that is there with the account ready; the selection under `provider_account` is all it changes |
| CapabilityReviews.InstallIff | runtime_phase1/src/workers_projects_runtime/control_plane.py:2656-2671 | A plan installs exactly when every prefix of it, merged in order, passes the probe of its last item |
| CapabilityReviews.PrepareThenConfirm | runtime_phase1/src/workers_projects_runtime/control_plane.py:2169-2916 | Confirmed next, a change just reviewed goes through exactly when its token is not empty, it is still in time, and the probes pass, for an upgrade on the bundle its target left |
| CapabilityReviews.GrantedAsRequested | runtime_phase1/src/workers_projects_runtime/control_plane.py:2228-2722 | In any run, whatever comes between, a confirmed request ends in one grant of the requested row for the scopes it resolved to when reviewed |
| CapabilityRuns.RevokeDiscardsNoEdit | runtime_phase1/src/workers_projects_runtime/control_plane.py:3024-3036 | With any outside edits interleaved, a successful revoke finds the bundle exactly as the step that wrote the grant left it |
| CapabilityRuns.UpgradeDiscardsNoEdit | runtime_phase1/src/workers_projects_runtime/control_plane.py:2633-2653 | A successful upgrade finds the bundle exactly as the replaced grant left it |
| CapabilityRuns.RevokeRestoresLineageStart | runtime_phase1/src/workers_projects_runtime/control_plane.py:2984-3045 | A successful revoke returns the bundle to its value just before the first grant of that lineage was applied |
| CapabilityRuns.RunGrows | runtime_phase1/src/workers_projects_runtime/control_plane.py:2689-2722 | Between any two states of a run no grant, change or manifest is rewritten; a grant is only ever revoked once and a change only ever resolved |
| CapabilityStacks.InstallMerges | runtime_phase1/src/workers_projects_runtime/control_plane.py:2656-2671 | A successful installation is the plan's bundles merged in order |
| CapabilityStacks.PlanKeepsRequirements | runtime_phase1/src/workers_projects_runtime/control_plane.py:2656-2671 | Keys probed for any item mid-plan are present in the final bundle, and so are its files when every later item has a list or nothing under `files` |
| CapabilityStacks.LastItemLosesFiles | runtime_phase1/src/workers_projects_runtime/control_plane.py:2656-2671 | When the last item has something else there, the files required by any item hold exactly if there are none |
| CapabilityStacks.QuietBundleIsMergedStack | runtime_phase1/src/workers_projects_runtime/control_plane.py:2602-2722 | Over any run without outside edits the bundle is the base with the active grants' plans merged in order |
| CapabilityStacks.UnwindRestoresBase | runtime_phase1/src/workers_projects_runtime/control_plane.py:2984-3045 | From there, revoking newest first succeeds every time and restores the base exactly |
| CapabilityStacks.UpgradeIsRevokeThenEnable | runtime_phase1/src/workers_projects_runtime/control_plane.py:2606-2722 | If an upgrade applies, revoking its target and enabling the new version also applies and gives the same state but for the link to the replaced grant |
| CapabilityStacks.UpgradeAppliesIff | runtime_phase1/src/workers_projects_runtime/control_plane.py:2606-2722 | An upgrade applies exactly when its target can be revoked, the new version can then be enabled, both are versions of one package, and what the enable grants widens neither the scopes nor their union |
| CapabilityStore.ControlPlaneStore.PublishManifest | runtime_phase1/src/workers_projects_runtime/control_plane.py:1106-1218 | The new tables are the specified publish of the old ones, or unchanged with its refusal |
| CapabilityStore.ControlPlaneStore.UpdateStatus | runtime_phase1/src/workers_projects_runtime/control_plane.py:1364-1495 | Disable, restore and remove with their guards in the source's order |
| CapabilityStore.ControlPlaneStore.DependenciesRestored | runtime_phase1/src/workers_projects_runtime/control_plane.py:1391-1424 | The queue of pins computes the restore check |
| CapabilityOperations.PublishNewIff | runtime_phase1/src/workers_projects_runtime/control_plane.py:1144-1218 | A manifest of a new version is published, available, exactly when it is well made and each pin is satisfied by an available row with its identity, profiles and scopes |
| CapabilityOperations.PublishAgainIff | runtime_phase1/src/workers_projects_runtime/control_plane.py:1144-1156 | One of a version already published is accepted exactly when it is the same manifest, and changes nothing |
| CapabilityOperations.ReleasesUnique | runtime_phase1/src/workers_projects_runtime/control_plane.py:1144-1156 | Every reachable catalog holds one manifest per package and version |
| CapabilityOperations.SetStatusIff | runtime_phase1/src/workers_projects_runtime/control_plane.py:1364-1495 | A status is set exactly when a reason is given unless it is `available`, a removed row stays removed, a row is made available only with all its pins available, and taken back only with no active grant and no available dependent; that row's status is all that changes |
| CapabilityOperations.NewerIsHigher | runtime_phase1/src/workers_projects_runtime/control_plane.py:2290-2300 | One row is newer than another exactly when its version, as spelled, has higher precedence, unless a number is spelled twice |
| CapabilityStore.ControlPlaneStore.PrepareChange | runtime_phase1/src/workers_projects_runtime/control_plane.py:2169-2451 | A review is recorded or refused as specified; `CapabilityReviews.PreparedIff` says exactly when, and with which scopes |
| CapabilityStore.ControlPlaneStore.ConfirmChange | runtime_phase1/src/workers_projects_runtime/control_plane.py:2473-2916 | The change is applied whole and resolved, or refused with nothing changed, as specified; `CapabilityReviews.EnableConfirmedIff`, `UpgradeConfirmedIff` and `SwitchConfirmedIff` say exactly when, and what it leaves |
| CapabilityStore.ControlPlaneStore.RevokeGrant | runtime_phase1/src/workers_projects_runtime/control_plane.py:2984-3045 | The newest grant is revoked and its prior bundle put back, or refused with nothing changed |
| CapabilityOperations.RevokeIff | runtime_phase1/src/workers_projects_runtime/control_plane.py:2984-3045 | A grant is revoked exactly when it is the workspace's last active one and the bundle is as it left it; the prior bundle comes back and the row is marked with the time |
| CapabilityOperations.EnableThenRevoke | runtime_phase1/src/workers_projects_runtime/control_plane.py:2984-3045 | Revoking what an enable just granted succeeds, whenever it comes, and leaves every workspace as before the enable |
| CapabilityStore.ServedIsStep | runtime_phase1/src/workers_projects_runtime/control_plane.py:206-222 | What the store serves is a step of a run, so the run theorems apply to it |
| ProviderLeases.ExclusiveAtAllTimes | runtime_phase1/src/workers_projects_runtime/control_plane.py:846-880 | In every reachable state, now and at any later time, an account has at most one unreleased, unexpired lease across all lanes |
| ProviderLeases.LeasesNeverOverlap | runtime_phase1/src/workers_projects_runtime/control_plane.py:846-880 | Over its whole history no two leases of an account overlap in time |
| ProviderLeases.NeverRevived | runtime_phase1/src/workers_projects_runtime/control_plane.py:1011-1057 | A released or expired lease stays over for the rest of the run, whatever heartbeats arrive |
| LeaseOperations.AcquireIff | runtime_phase1/src/workers_projects_runtime/control_plane.py:768-881 | An account is leased exactly when its owner asks with an accepted status and recovery, no run blocks an interactive lane, and no unreleased lease runs past now; it is then held for the clamped time and nothing else changes |
| LeaseOperations.HeartbeatIff | runtime_phase1/src/workers_projects_runtime/control_plane.py:1011-1045 | A lease is prolonged exactly when its holder still has it, to the clamped time from now |
| LeaseOperations.ReleaseIff | runtime_phase1/src/workers_projects_runtime/control_plane.py:1047-1057 | A lease is released exactly when its holder has not released it, expired or not |
| LeaseOperations.ReleaseFrees | runtime_phase1/src/workers_projects_runtime/control_plane.py:768-1057 | Releasing the lease that holds an account frees it at once and for good: whoever may lease it then can |
| LeaseOperations.DisconnectThenForget | runtime_phase1/src/workers_projects_runtime/control_plane.py:681-766 | A disconnect ends every lease of the account and touches no other, and the account can then be forgotten |
| LeaseOperations.ForgetIff | runtime_phase1/src/workers_projects_runtime/control_plane.py:720-766 | An account is forgotten exactly when it is its owner's, disconnected and free; its lease rows go, all others stay |
| LeaseOperations.CreateIff | runtime_phase1/src/workers_projects_runtime/control_plane.py:526-610 | An account is added exactly below the owner's limit |
| LeaseOperations.DefaultAfterCreate | runtime_phase1/src/workers_projects_runtime/control_plane.py:526-610 | The new account is the default for its provider if asked or if there was none, and then the only one |
| LeaseOperations.StatusIff | runtime_phase1/src/workers_projects_runtime/control_plane.py:637-679 | A status is recorded exactly for the owner's own account and with a known recovery code, if any; nothing else changes |
| ProviderLeases.ServedIsStep | runtime_phase1/src/workers_projects_runtime/control_plane.py:681-1057 | What the account store serves is a step of a run |
| Duplications.CompletedAtMostOnce | runtime_phase1/src/workers_projects_runtime/control_plane.py:2018-2049 | Under any interleaving a key is completed by at most one event |
| Duplications.CompletedAnswers | runtime_phase1/src/workers_projects_runtime/control_plane.py:1937-1971 | From then on the same request gets the stored response, any other is refused, and a reservation changes nothing |
| Duplications.CompletedForever | runtime_phase1/src/workers_projects_runtime/control_plane.py:1998-2084 | No step ever rewrites a completed row |
| DuplicationOutcomes.ReserveIff | runtime_phase1/src/workers_projects_runtime/control_plane.py:1937-1996 | Each answer to a reservation and exactly when it is given, by request, status, response and what a failure left behind |
| DuplicationOutcomes.ReserveWrites | runtime_phase1/src/workers_projects_runtime/control_plane.py:1937-1996 | A reservation writes its own key's row if the key is free, pending under the new project, and otherwise changes nothing |
| DuplicationOutcomes.UpdatesIff | runtime_phase1/src/workers_projects_runtime/control_plane.py:1998-2084 | Recording, completing and failing take effect exactly while the row is pending, on that row only, and write exactly these columns |
| DuplicationOutcomes.ReservedThenCompleted | runtime_phase1/src/workers_projects_runtime/control_plane.py:1937-2049 | A new key reserved and completed replays the response to the same request and refuses any other |
| DuplicationOutcomes.ReservedThenFailed | runtime_phase1/src/workers_projects_runtime/control_plane.py:1937-2084 | A new key reserved and failed can be tried again exactly when the failure left neither project nor worker |
| DuplicationExecutors.OneWorkspacePerKey | runtime_phase1/src/workers_projects_runtime/api.py:3900-4121 | Under any interleaving and crashes, with one live executor per reservation, no key yields two workspaces and a key that yields one is not retryable |
| DuplicationExecutors.CompletedNamesWorkspace | runtime_phase1/src/workers_projects_runtime/api.py:4050-4121 | A completed row names a workspace the key really yielded |
| DuplicationExecutors.TakeoverWhileAliveYieldsTwo | runtime_phase1/src/workers_projects_runtime/api.py:3908-3960 | With a takeover while the first executor lives, a run exists in which one key yields two workspaces |
| DuplicationRecovery.ServedCompletes | runtime_phase1/src/workers_projects_runtime/api.py:3900-4121 | An executor left alone with a new key completes it, naming a project with its one copied worker |
| DuplicationRecovery.AbandonedRecovers | runtime_phase1/src/workers_projects_runtime/api.py:3908-3960 | A key whose executor died anywhere is recovered from by the next request that finds it stale: completed if the copy had finished, otherwise failed, and free to try again exactly if no worker was made |
| CapabilityBroker.AcceptedOnce | runtime_phase1/src/workers_projects_runtime/capability_broker.py:640-702 | Under any interleaving an accepted grant is, from then on, in exactly one of: the active table, the hands of the thread that took it, or sent for revocation, once |
| CapabilityBroker.NothingLeftBehind | runtime_phase1/src/workers_projects_runtime/capability_broker.py:707-741 | When binds of one key never overlap no grant is turned away for another; once all are over and all revocations sent, the table is empty and every granted, unrejected grant was sent exactly once |
| CapabilityBroker.OverlapLosesGrant | runtime_phase1/src/workers_projects_runtime/capability_broker.py:640-647 | Of two overlapping binds of one key, one grant is turned away and never enters the table or a revocation |
| CapabilityBroker.NoConflictIff | runtime_phase1/src/workers_projects_runtime/capability_broker.py:640-647 | In any run a grant is turned away exactly when some grant is stored while the table holds another of its key |
| CapabilityBroker.IssueIsEvent | runtime_phase1/src/workers_projects_runtime/capability_broker.py:605-648 | Settling an answer in the registry is the event that stores or rejects it in the state machine, on a table with the same entries |
| CapabilityBroker.TakeIsEvent | runtime_phase1/src/workers_projects_runtime/capability_broker.py:690-695 | Taking matching entries out of the registry is the event `Take`, which queues the grants of exactly those entries for revocation |
| CapabilityBroker.GrantRegistry.Issue | runtime_phase1/src/workers_projects_runtime/capability_broker.py:605-648 | An in-scope answer is stored unless its key is taken; every other answer leaves the table alone |
| CapabilityBroker.AcceptedIff | runtime_phase1/src/workers_projects_runtime/capability_broker.py:605-648 | An answer is entered exactly when it is a grant of this tenant, user, worker, run and mode, not expired, renewable no shorter than it lasts, and none is entered for the run |
| CapabilityBroker.RemainingIff | runtime_phase1/src/workers_projects_runtime/capability_broker.py:690-695 | Taking by run leaves every other run's grant, taking by worker every other worker's |
| CapabilityBroker.GrantRegistry.RevokeActive | runtime_phase1/src/workers_projects_runtime/capability_broker.py:679-705 | Every matching grant leaves the table and is sent exactly once, also after an unconfirmed one; all others stay |
| FeelingCapsules.Scan | runtime_phase1/src/workers_projects_runtime/bootstrap.py:452-477 | The cursor loop computes the specified split of the text into gaps and capsules |
| FeelingCapsules.SplitSound | runtime_phase1/src/workers_projects_runtime/bootstrap.py:446-477 | The gaps and capsules interleaved rebuild the text; every gap is free of markers and every capsule is one well-formed block |
| FeelingCapsules.SplitComplete | runtime_phase1/src/workers_projects_runtime/bootstrap.py:446-477 | Any interleaving of marker-free gaps and well-formed blocks splits into exactly those |
| FeelingCapsules.SplitAcceptsIff | runtime_phase1/src/workers_projects_runtime/bootstrap.py:446-477 | A text is accepted exactly when it is such an interleaving |
| FeelingCapsules.SplitFeelingIff | runtime_phase1/src/workers_projects_runtime/bootstrap.py:446-477 | With the program's own markers, a text splits into given pieces exactly when they are genuine and interleave to the text |
| FeelingCapsules.FeelingIsSpelled | runtime_phase1/src/workers_projects_runtime/bootstrap.py:130-132 | The markers, written out |
| FeelingProjection.SplitIsClean | runtime_phase1/src/workers_projects_runtime/bootstrap.py:446-477 | The cleaned text holds no marker and is trimmed; every capsule is well formed |
| FeelingProjection.SplitGives | runtime_phase1/src/workers_projects_runtime/bootstrap.py:446-477 | A value splits exactly when its trimmed text is gaps and well-formed blocks interleaved; the capsules are those blocks in order, and the cleaned text is made of the gaps that are not blank, trimmed and in order |
| FeelingProjection.SplitIdempotent | runtime_phase1/src/workers_projects_runtime/bootstrap.py:446-477 | Splitting the cleaned text returns it with no capsules |
| FeelingProjection.WithCapsuleSplits | runtime_phase1/src/workers_projects_runtime/bootstrap.py:585-594 | A clean text with one capsule put at its end splits back into exactly that text and capsule |
| CanonicalInstructions.CanonicalizeIdempotent | runtime_phase1/src/workers_projects_runtime/bootstrap.py:514-594 | Canonicalizing a canonical bundle returns it unchanged |
| CanonicalInstructions.CanonicalCapsules | runtime_phase1/src/workers_projects_runtime/bootstrap.py:514-594 | When a capsule is materialised, exactly one remains, the hashed one, at the end of `agents_md`; otherwise none anywhere (which envelopes do which: `CanonicalEnvelopes.CanonicalizeByFields`) |
| CanonicalInstructions.CapsulesGenuine | runtime_phase1/src/workers_projects_runtime/bootstrap.py:517-530 | Every capsule the traversal finds is a well-formed block |
| CanonicalInstructions.CanonicalizeFeelingTwice | runtime_phase1/src/workers_projects_runtime/bootstrap.py:514-594 | With the program's own markers, canonicalizing twice is canonicalizing once, and one capsule is left when the envelope is on, none when it is off |
| CanonicalEnvelopes.CanonicalizeByFields | runtime_phase1/src/workers_projects_runtime/bootstrap.py:546-594 | By the values of the envelope's six fields: the one capsule is put at the end of `agents_md` exactly when the envelope is enabled for all agents, expects one, and carries its hash, and `agents_md` is absent or a text; the cleaned bundle is returned exactly when it is disabled, expects none and its other fields are valid, `all_agents` included; every other envelope is refused |
| CanonicalEnvelopes.CanonicalizeWithoutEnvelope | runtime_phase1/src/workers_projects_runtime/bootstrap.py:480-544 | Without an envelope the bundle is returned as it is unless it holds several capsules that are no exact mirror of one |
| CanonicalEnvelopes.CleanedIff | runtime_phase1/src/workers_projects_runtime/bootstrap.py:514-530 | A bundle is cleaned exactly when every text in it, at any depth, splits |
| CanonicalEnvelopes.CleanEverywhere | runtime_phase1/src/workers_projects_runtime/bootstrap.py:514-530 | No text anywhere in a cleaned bundle holds a marker or blank ends |
| CanonicalEnvelopes.AllCollected | runtime_phase1/src/workers_projects_runtime/bootstrap.py:514-530 | Every capsule of every text is collected |
| CodexConfig.StripServerBlocks | runtime_phase1/src/workers_projects_runtime/bootstrap.py:1848-1861 | The flag loop computes the specified strip |
| CodexHeaders.OpensIff | runtime_phase1/src/workers_projects_runtime/bootstrap.py:1848-1861 | A line opens a block of the named servers exactly when it is, but for white space, a bracketed name without further bracket that spells `mcp_servers.`, one of them in any quotes, and nothing or a dot |
| CodexHeaders.DeclaresIff | runtime_phase1/src/workers_projects_runtime/bootstrap.py:1840-1846 | A line declares a server exactly when it is, but for white space, its bare header |
| CodexConfig.KeptIsOthers | runtime_phase1/src/workers_projects_runtime/bootstrap.py:1848-1861 | Dropping lines by a flag keeps exactly what precedes the first header and every block of another section, whole and in order |
| CodexConfig.RefreshKeepsOtherSections | runtime_phase1/src/workers_projects_runtime/bootstrap.py:1820-1828 | The refreshed file is, line by line, all other sections whole and in order less trailing blanks, a blank line, and the appended text |
| CodexLineBreaks.StripVerbatimIff | runtime_phase1/src/workers_projects_runtime/bootstrap.py:1848-1861 | A file of other sections only keeps its text, less trailing blanks, exactly when its line breaks are line feeds |
| CodexLineBreaks.StripLeavesLineFeeds | runtime_phase1/src/workers_projects_runtime/bootstrap.py:1848-1861 | Stripping named servers leaves no line break but line feeds, whatever the text held |
| CodexConfig.RefreshTwiceIff | runtime_phase1/src/workers_projects_runtime/bootstrap.py:1820-1828 | Refreshing twice equals refreshing once exactly when the appended text, stripped of the servers it declares, leaves nothing |
| CodexConfig.RefreshTwice | runtime_phase1/src/workers_projects_runtime/bootstrap.py:1820-1861 | So it holds for a text made only of blocks of unquoted servers |
| CodexConfig.UndeclaredGrows | runtime_phase1/src/workers_projects_runtime/bootstrap.py:1820-1828 | A text that declares no server is appended once more by every refresh |
| Redaction.ReplaceExactCleans | runtime_phase1/src/workers_projects_runtime/durable_capture.py:114-121 | When no value has a bracket or occurs in a marker, no learned value is left anywhere, and replacing again changes nothing |
| Redaction.LongestIsReplacedWhole | runtime_phase1/src/workers_projects_runtime/durable_capture.py:114-121 | Longest first: a value standing alone is replaced whole by its own marker, even when shorter learned values occur inside it |
| Redaction.ValueBecomesMarker | runtime_phase1/src/workers_projects_runtime/durable_capture.py:114-121 | A text that is exactly a learned value becomes exactly its marker |
| Redaction.CleansItselfIff | runtime_phase1/src/workers_projects_runtime/durable_capture.py:114-121 | A value alone in the dictionary is removed from itself exactly when it does not occur in its marker |
| Redaction.BracketReappears | runtime_phase1/src/workers_projects_runtime/durable_capture.py:114-121 | A value that opens with a closing bracket can be absent from a text and present after replacement |
| Redaction.LongestFirstOrders | runtime_phase1/src/workers_projects_runtime/durable_capture.py:117-119 | The replacement order is a permutation of the dictionary by decreasing length |
| RedactionKeeps.ReplaceJoins | runtime_phase1/src/workers_projects_runtime/durable_capture.py:114-121 | Replacing a value cuts the text at its leftmost occurrences and joins the pieces, unchanged and in order, with the marker |
| RedactionKeeps.ReplaceExactSteps | runtime_phase1/src/workers_projects_runtime/durable_capture.py:114-121 | Redacting a text is a chain of such replacements, one per learned value, the longer first, each with its own marker |
| DurableCapture.DiscoverValues | runtime_phase1/src/workers_projects_runtime/durable_capture.py:85-103 | Discovery adds exactly the values a JSON value gives away, which `ReservedFields.SecretsIff` gives by field name and path |
| ReservedFields.SecretsIff | runtime_phase1/src/workers_projects_runtime/durable_capture.py:12-20 | What a JSON value gives away is exactly what some field of one of the two reserved names holds, at any path of objects, lists and embedded JSON within the levels, if it has 16 to 8192 characters and is no marker |
| ReservedFields.HeldIsLearned | runtime_phase1/src/workers_projects_runtime/durable_capture.py:53-103 | Such a value is known after discovery, with its field's marker while no field of the other name holds it |
| ReservedFields.ScrubRedacts | runtime_phase1/src/workers_projects_runtime/durable_capture.py:123-144 | The scrubbed value has the same shape, names and scalars; each reserved field holds its marker |
| ReservedFields.JsonLineRedacted | runtime_phase1/src/workers_projects_runtime/durable_capture.py:146-172 | A JSON line is replaced by its redacted value, rendered, with its own ending |
| DurableCapture.ScrubValueValues | runtime_phase1/src/workers_projects_runtime/durable_capture.py:123-144 | Scrubbing a JSON value forgets nothing and learns nothing discovery would not |
| ArtifactScrub.JsonScrubbed | runtime_phase1/src/workers_projects_runtime/durable_capture.py:123-144 | Once what a JSON value gives away is known, no text in the scrubbed value contains a known value, reserved and embedded fields included, down to the depth limit |
| ArtifactScrub.PiecesConserve | runtime_phase1/src/workers_projects_runtime/durable_capture.py:155-172 | The kept-ends lines of a text put together are the text |
| ArtifactScrub.PlainTextScrubbed | runtime_phase1/src/workers_projects_runtime/durable_capture.py:146-172 | A text of plain lines keeps none of the known one-line values, within a line or across two |
| ArtifactScrub.ScrubPlainTwice | runtime_phase1/src/workers_projects_runtime/durable_capture.py:146-172 | Scrubbing plain lines twice is scrubbing them once |
| ArtifactScrub.ArtifactLinesScrubbed | runtime_phase1/src/workers_projects_runtime/durable_capture.py:250-275 | A value given away by any artifact is removed from every plain line of every artifact; what is known afterwards is exactly what was known and what the artifacts gave away |
| ArtifactSecrets.NamedSecretRemoved | runtime_phase1/src/workers_projects_runtime/durable_capture.py:250-275 | A value held by a field named `_viventium_operation_token` or `GLASSHIVE_CAPABILITY_BROKER_TOKEN` in a JSON line of any artifact is in no plain line of any artifact afterwards |
| ArtifactSecrets.ArtifactsGive | runtime_phase1/src/workers_projects_runtime/durable_capture.py:250-275 | Known afterwards is exactly what was known and what reserved fields in JSON lines of some artifact hold |
| ArtifactScrub.PlainArtifactScrubbed | runtime_phase1/src/workers_projects_runtime/durable_capture.py:250-275 | An artifact of plain lines holds no such value anywhere, and scrubbing that learns no more leaves it alone |
| SecretScrubber.DurableSecretScrubber.ScrubText | runtime_phase1/src/workers_projects_runtime/durable_capture.py:146-172 | Text and dictionary after scrubbing are the specified functions of the text and the old dictionary |
| SecretScrubber.DurableSecretScrubber.ReplaceExactValues | runtime_phase1/src/workers_projects_runtime/durable_capture.py:114-121 | The loop over the sorted dictionary computes the specified replacement |
| SecretScrubber.ScrubDurableTextArtifacts | runtime_phase1/src/workers_projects_runtime/durable_capture.py:250-275 | Learning from all artifacts and then rewriting each in place gives the specified texts, and returns the positions that changed |
| SecretScrubber.ChangedDiffer | runtime_phase1/src/workers_projects_runtime/durable_capture.py:258-275 | The returned list is exactly the differing positions, in increasing order |

## Left out

- SQLite plumbing, schema migration, row projection, JSON encoding and file permissions: tables are sequences and maps, transactions atomic steps.
- Random ids and tokens are parameters of the operations; hashes are compared through the values they hash, so two different values never share one.
- Writers outside the modelled store: store.py deletes an ephemeral worker's grants and changes with the worker, and native_continuity.py revokes all grants and empties their rollback bundles when a backup is restored. Edits of a workspace's bundle by anyone else are modelled.
- The update that marks a change `expired` is inside the transaction its own error rolls back, so here, as in the code, the change stays pending and can no longer be confirmed.
- The integrity re-checks of stored manifests never fail here, because rows hold what validation returned and validation is idempotent (`ManifestNormalForm.ValidateTwice`); rows edited behind the store's back are not part of this model.
- CapabilityRuns.RevokeDiscardsNoEdit: bundles are compared as structures. The code compares with Python's `==`, for which `true` equals `1` and `1.0`, so an edit from one to the other passes the test and is discarded; and a bundle that holds NaN never equals its stored copy, so its grant cannot be revoked. The model's `Json` tells the first apart and cannot hold the second.
- CapabilityRuns.UpgradeDiscardsNoEdit: as for revoking, bundles are compared as structures.
- Sorted duplicate-free lists of scopes, profiles and probe requirements are sets in the control plane; their normalisation as lists is in `Manifests`.
- A lease's run fence and run-state queries are one boolean.
- CapabilityStore.ControlPlaneStore.ConfirmChange: the account, lease and run checks of an account switch are the boolean `accountReady`; waivers that come with a workspace copy and changes that name no library item are not modelled.
- CapabilityReviews.SwitchPreparedIff: the review's checks of the workspace's state, the policy and the account tables are left to the caller; the confirmation's are the boolean `accountReady`.
- CapabilityStore.ControlPlaneStore.PrepareChange: waivers and changes that name no library item are not modelled; a workspace-capability grant request takes the same branches as a library enable and is not a separate kind.
- Connections, library proposals, readiness reports and usage records are not modelled.
- TemplateWalk.ValidateTemplateLibraries: the refusal of a row whose manifest has no activation is left out, because no validated manifest lacks one.
- Template instantiation reservations follow the duplication reservations' shape and would add only easier members.
- Bundles.PathOf: a file entry whose path is not a text counts as one without a path, where the code takes the number's text.
- Manifests.Validate: URI syntax, the configuration schema, file entries, server configurations and TOML, credential patterns and encoded size are function parameters; a letter outside ASCII that lower-cases into ASCII is not folded; a health-probe requirement given as an object is refused, where the code reads its keys.
- The plan holds one version per identity, not per stable id: only direct dependencies are checked for repeated stable ids.
- Workspace duplication: copying files, copying capability reviews and deleting projects are single events that succeed or fail; HTTP status codes are not modelled.
- DurableCapture.Discover: JSON parsing, rendering and `str()` of values that are not text are parameters; lines are split once with their breaks kept, since stripping makes the breaks irrelevant to what is learned.
- ArtifactScrub.JsonScrubbed: field names are not scrubbed by the code, and how a scrubbed value is rendered as text is not modelled.
- ArtifactScrub.ScrubPlainTwice: requires the scrubbed lines not to parse as JSON, because replacing a value can turn a broken line into valid JSON whose reserved fields are then rewritten; whether it does depends on the parser, which is a parameter. Replacement by itself is idempotent without that (`Redaction.ReplaceExactCleans`).
- Selecting artifact files by suffix, name and size, symbolic links, and atomic replacement on disk.
- Broker requests over HTTP, assertions and response shapes: an answer arrives or not; an exception other than a broker error in the middle of a revocation loop is not modelled.
- CodexConfig.Refresh: the text part only; in a clean room the existing text is empty and the appended text fixed. Server names match the code's expressions on lines; TOML is not parsed.
- Unicode case folding and the rest of the runtime: routes, pages, signed links, terminals, authentication, admission, failure classification, plugin and deliverable files.
