# Verified models of the artifact gateway, the local provider and the deployment core

This project models six stateful parts of the platform in Dafny and proves what they keep true
over whole runs. Each part has a specification module (values, functions, a step machine), modules
of lemmas about every run of it, and, where the code changes state in place, a class whose methods
are proved to do exactly the specification's steps.

| part | specification | what every run keeps | the code's own shape |
|---|---|---|---|
| artifact gateway | `ArtifactSpec`, `Paths`, `Keys`, `Extraction` | `PathSpellings`, `GatewayRuns`, `GatewayVerdicts`, `PublicationRuns`, `RetentionRuns`, `InterruptionRuns` | `Gateway.Artifacts`, `Extraction.ExtractFiles` |
| local provider | `ProviderSpec` | `ProviderRuns`, `ProviderRoutes`, `ProviderReceipts`, `ProviderCallbacks`, `ProviderVerdicts`, `ProviderCancellation`, `ProviderConvergence` | `Provider.StateStore`, `Provider.RouteWriter`, `Provider.Processor` |
| runner and preset registry | `JsonTrees`, `RegistrySpec` | `RegistryItems`, `RegistryMeaning`, `RegistryUpdates`, `RegistryRuns` | `Registry.RegistryService`, `Registry.Demote` |
| deployment lifecycle | `LifecycleSpec` | `LifecycleRuns`, `LifecycleHistory` | `Lifecycle.DeploymentJobs` |
| project environments | `EnvironmentSpec` | `EnvironmentEdits`, `EnvironmentRuns` | `Environments.ProjectRecord`, `Environments.GroupBranches` |
| request authenticator | `Authentication` | `Authentication` | `Authentication.RequestAuthenticator` |

`dafny verify dfyconfig.toml` checks everything.

What an operation accepts, refuses and leaves behind is also said without its specification
functions, in the fields of its inputs, the stored state and the history of the run: for the gateway
in `GatewayVerdicts` and `PathSpellings`, for the provider in `ProviderVerdicts` and
`ProviderCallbacks`, for the registry in `RegistryItems` and `JsonTrees.MergePaths`, for the lifecycle
in `LifecycleHistory`, for environments in `EnvironmentEdits`, for signatures in
`Authentication.AcceptedIsGenuine`. The limits are written out there as numbers.

How the outside is modelled:

- Concurrency and crashes are steps. A publication is a list of puts and may die after any of
  them; a provider command is a list of effects and may die between any two; finalize commits
  aliases and status in separate steps; cleanup asks its two queries and makes its stops in
  separate steps. A theorem about a run quantifies over every list of steps.
- Replies of the container runtime, the control plane, the object store's clock and the wall clock
  are inputs of the steps. Times are integers.
- Digests are free of collisions, and canonical JSON is as good as the document it encodes, so
  both are datatype values. A signature is a yes or no.
- A tar archive is its bytes together with the sequence of members the reader hands over, or
  nothing when it is no archive; a digest stands for the bytes.

Where the code does less than its surroundings suggest, the code is followed and the gap is stated
exactly:

- Switching off a registry item that the catalog itself enables is lost (`RegistryUpdates.DisablingEnabledItemIsLost`);
  pruning keeps the meaning of the overrides exactly when no entry does that, has a foreign slug or
  is an incomplete custom one (`RegistryMeaning.PruneKeepsMeaning`), and is idempotent exactly when
  no entry does only that (`RegistryUpdates.PruneIsIdempotent`).
- Dying inside one revision's deletions can leave a manifest without its files
  (`InterruptionRuns.IndexGone`, exactly when: `InterruptionRuns.DeletionsStopped`); over whole runs
  only revisions being deleted are affected, and repeating the request repairs them.
- Two alias ids that differ only in dashes share a router (`ProviderRoutes.DashedIdsCollide`); the
  route file matches the table exactly when no two do (`ProviderRoutes.RenderExact`), which
  canonical UUIDs guarantee.
- Finalize looks only for a cancellation, so it can serve a failed deployment whose container
  cleanup has stopped (`LifecycleRuns.FinalizeAfterFailure`, exact condition
  `LifecycleRuns.FinalizeIsSafeExactly`), and a whole finalize can slip between cleanup's two queries
  (`LifecycleRuns.FinalizeBetweenQueries`, exact condition `LifecycleRuns.QueriesAreSafeExactly`).
- Environments are looked up by id whether active or not, so renaming or deleting a deleted one can
  change the variables of an active one (`EnvironmentRuns.RenamingDeletedTakesVariables`, exact
  conditions `EnvironmentRuns.RenameChangesOthersExactly` and `EnvironmentRuns.DeleteChangesOthersExactly`).
- Renaming onto a slug that variables are already tagged with can change values
  (`EnvironmentRuns.RenameOntoTaggedSlug`, exact condition `EnvironmentRuns.RenameKeepsValuesExactly`).
- A wildcard inside a pattern also takes branches in which its two ends overlap (`EnvironmentRuns.WildcardExactly`).
- A clock that goes back can let a forgotten request id in again (`Authentication.ClockGoingBack`,
  exact condition for every clock `Authentication.AcceptedForAnyClock`).

The update method alone does not check an empty slug for uniqueness (`EnvironmentRuns.UpdateKeepsSlugsExactly`);
the settings form, its only caller, refuses one.

## Model

| member | source | states |
|---|---|---|
| Paths.NormalizePath | services/artifact_gateway/artifact_gateway/artifacts.py:367-389 | The loop that strips `./` and the checks after it compute the specified verdict and path, for any text and both kinds of member. |
| Paths.CanonicalIsFixed | services/artifact_gateway/artifact_gateway/artifacts.py:367-389 | Exactly the canonical paths are accepted unchanged: printable, at most 512 bytes, no empty, `.` or `..` part. |
| Paths.CheckedIsCanonical | services/artifact_gateway/artifact_gateway/artifacts.py:367-389 | Whatever spelling was accepted, the result is canonical and checking it again returns it. |
| PathSpellings.SpellingsExactly | services/artifact_gateway/artifact_gateway/artifacts.py:367-389 | A text is accepted as path p exactly when p is canonical and the text is p after some number of `./`. |
| PathSpellings.DirectorySpellingsExactly | services/artifact_gateway/artifact_gateway/artifacts.py:367-389 | For a directory exactly when any number of slashes may follow as well. |
| PathSpellings.AcceptedIsInside | services/artifact_gateway/artifact_gateway/artifacts.py:367-389 | No accepted text has a backslash or a control character, and no accepted path has more than 512 bytes, a slash at an end, a double slash or a `..` step. |
| PathSpellings.SuffixExactly | services/artifact_gateway/artifact_gateway/artifacts.py:440-443 | The suffix that picks the media type starts at the last dot of the name, if that neither starts nor ends the name, and is empty otherwise. |
| PathSpellings.HashedNameExactly | services/artifact_gateway/artifact_gateway/artifacts.py:19 | A name counts as hashed exactly when 8 to 64 hex digits stand in it between separators or its ends. |
| PathSpellings.CachePolicyExactly | services/artifact_gateway/artifact_gateway/artifacts.py:445-450 | Index pages in any directory are never cached, exactly the other hashed names are immutable, the rest are kept for 300 seconds. |
| Extraction.ExtractFiles | services/artifact_gateway/artifact_gateway/artifacts.py:319-365 | The extraction loop with its three accumulators returns the specified files or the specified fault, in the code's order of checks, also when the reader raises in the middle. |
| Extraction.TakeAllExact | services/artifact_gateway/artifact_gateway/artifacts.py:324-360 | From any tallied state the loop succeeds exactly when every member is well formed and the files still fit, and then has gained exactly their files. |
| Extraction.ExtractExact | services/artifact_gateway/artifact_gateway/artifacts.py:319-365 | An archive is accepted exactly when a loop-free condition on its members holds: distinct canonical paths, sizes as announced and within limits, an index; the result is those files in strictly increasing path order. |
| Extraction.ExtractSaysWhy | services/artifact_gateway/artifact_gateway/artifacts.py:319-365 | The first member that is bad, or that those before it leave no room for, is what the archive is refused for, with its own code: unreadable, path, type, duplicate, size, expansion or short body. |
| Extraction.IndexIsRequired | services/artifact_gateway/artifact_gateway/artifacts.py:363-364 | With nothing else wrong, an archive without an index page is refused for that. |
| Extraction.ExtractPermuted | services/artifact_gateway/artifact_gateway/artifacts.py:319-365 | Reordering the members of an accepted archive gives the same tuple of files. |
| Extraction.ExtractBounds | services/artifact_gateway/artifact_gateway/artifacts.py:337-365 | Accepted files have distinct canonical paths, include index.html, and keep the count, per-file and total size limits. |
| Keys.RevisionOfKey | services/artifact_gateway/artifact_gateway/artifacts.py:283-289 | Stripping the organization prefix and splitting at the first slash recovers exactly the revision a key was made for. |
| Keys.ForeignKey | services/artifact_gateway/artifact_gateway/artifacts.py:283-285 | A key of one organization is never listed under another's prefix. |
| Keys.EvidenceOutside | services/artifact_gateway/artifact_gateway/artifacts.py:206 | No evidence key lies under any organization's revision prefix. |
| Keys.FileKeyInjective | services/artifact_gateway/artifact_gateway/artifacts.py:137 | A file key determines its organization, revision and path. |
| Keys.ManifestKeyInjective | services/artifact_gateway/artifact_gateway/artifacts.py:100-101 | A manifest key determines its organization and revision. |
| Keys.ManifestIsNoFile | services/artifact_gateway/artifact_gateway/artifacts.py:100-137 | No file of any revision is stored under a manifest key. |
| GatewayVerdicts.PublishSucceedsExactly | services/artifact_gateway/artifact_gateway/artifacts.py:82-148 | A publication succeeds exactly when both ids are UUIDs, the digest is the archive's own, the size and members are acceptable, and the stored manifest is of this archive or there is none and no file key holds another body. |
| GatewayVerdicts.RefusedPublishStoresNothing | services/artifact_gateway/artifact_gateway/artifacts.py:92-98 | A request with a wrong id, digest, size or archive leaves the store as it was, however far it is let run. |
| GatewayVerdicts.RefusedPublishSaysWhy | services/artifact_gateway/artifact_gateway/artifacts.py:92-98 | It is refused for the first of these that is wrong, with its code and status. |
| GatewayVerdicts.NewManifestSays | services/artifact_gateway/artifact_gateway/artifacts.py:111-133 | A new manifest names the request's organization and revision, its time in seconds, the archive's digest and size. |
| GatewayVerdicts.NewManifestLists | services/artifact_gateway/artifact_gateway/artifacts.py:124-133 | It lists exactly the archive's files, each with its path, digest, media type, size and cache policy. |
| GatewayVerdicts.NewManifestIsSorted | services/artifact_gateway/artifact_gateway/artifacts.py:124-133 | Its entries come in strictly increasing order of their paths. |
| GatewayVerdicts.PublishAddsOnly | services/artifact_gateway/artifact_gateway/artifacts.py:134-147 | However far a publication is let run, all it adds are the archive's files under their own keys and types, and the manifest of this archive. |
| GatewayVerdicts.PutsGoThroughExactly | services/artifact_gateway/artifact_gateway/artifacts.py:134-147 | A list of puts to different keys goes through exactly when each key is free or holds the same body. |
| GatewayVerdicts.ServesExactly | services/artifact_gateway/artifact_gateway/artifacts.py:163-181 | Under every spelling of a canonical path a file is served exactly when it is stored under the revision, with the stored body, its digest, type and policy. |
| GatewayVerdicts.ServesNothingElse | services/artifact_gateway/artifact_gateway/artifacts.py:163-181 | A text that spells no canonical path is refused as one. |
| GatewayVerdicts.EvidenceNamesExactly | services/artifact_gateway/artifact_gateway/artifacts.py:18 | A name is accepted exactly when it is a lower-case letter, up to 47 more of the allowed characters, and one of three extensions. |
| GatewayVerdicts.EvidenceIsStoredExactly | services/artifact_gateway/artifact_gateway/artifacts.py:183-221 | Evidence is taken exactly when ids, name, size, JSON form and digest are right and its key is free or holds the same body; then that key holds it and no other object has changed. |
| GatewayVerdicts.EvidenceKeyInjective | services/artifact_gateway/artifact_gateway/artifacts.py:206 | An evidence key determines its organization, build and name. |
| GatewayVerdicts.EvidenceIsReadBack | services/artifact_gateway/artifact_gateway/artifacts.py:183-236 | Evidence that was taken is read back as it was sent after any run of publications, evidence and reconciliations, crashes included. |
| GatewayVerdicts.ReconcilesExactly | services/artifact_gateway/artifact_gateway/artifacts.py:238-317 | A reconciliation goes through exactly when all ids are UUIDs, neither set has more than 1000, they are disjoint, the cutoff is not in the future, and its id has no receipt of another request; otherwise, and when repeated, the store is unchanged. |
| Gateway.Artifacts.PutImmutable | services/artifact_gateway/artifact_gateway/artifacts.py:400-420 | Stores a new object, accepts the same body, refuses another and then changes nothing. |
| Gateway.Artifacts.PublishStatic | services/artifact_gateway/artifact_gateway/artifacts.py:82-148 | The method's puts one by one end in the specified store and outcome; it succeeds exactly for a request in order, with the archive's own digest, that nothing stored opposes, and a request not in order changes nothing. |
| Gateway.Artifacts.ServeFile | services/artifact_gateway/artifact_gateway/artifacts.py:163-181 | Returns the stored body under the checked path with its digest, media type and cache policy, or the specified fault. |
| Gateway.Artifacts.StoreEvidence | services/artifact_gateway/artifact_gateway/artifacts.py:183-221 | Checks in the code's order, then one immutable put; it succeeds exactly for evidence in order whose key is free or holds it already. |
| Gateway.Artifacts.EvidenceBody | services/artifact_gateway/artifact_gateway/artifacts.py:223-236 | Returns the stored body under the checked ids and name, or the fault. |
| Gateway.Artifacts.List | services/artifact_gateway/artifact_gateway/storage.py:108-117 | Lists every object under the prefix exactly once with its time, in some order. |
| Gateway.Artifacts.Delete | services/artifact_gateway/artifact_gateway/storage.py:119-121 | Removes exactly the given keys, one after another; what a prefix of them leaves is `InterruptionRuns.DeletionsStopped`. |
| Gateway.Artifacts.GroupCandidates | services/artifact_gateway/artifact_gateway/artifacts.py:284-289 | Groups the listed objects so that each candidate's group is exactly that revision's objects. |
| Gateway.Artifacts.Sweep | services/artifact_gateway/artifact_gateway/artifacts.py:291-301 | Deletes, in increasing order, exactly the candidates that are not retained and whose newest object is before the cutoff; the store loses exactly their objects. |
| Gateway.Artifacts.Reconcile | services/artifact_gateway/artifact_gateway/artifacts.py:238-317 | Listing, grouping, deleting and writing the receipt end in the specified store, receipt and faults; it goes through exactly for a request in order whose id is not taken by another. |
| Gateway.GroupIsRevision | services/artifact_gateway/artifact_gateway/artifacts.py:283-289 | The keys grouped under a candidate are exactly the stored keys of that revision. |
| Gateway.ExpiredByNewest | services/artifact_gateway/artifact_gateway/artifacts.py:295-296 | Comparing the newest object of a group with the cutoff decides whether all objects of the revision are older. |
| GatewayRuns.PutsStore | services/artifact_gateway/artifact_gateway/artifacts.py:134-147 | When a list of puts goes through, every address holds what was put. |
| GatewayRuns.PutsResume | services/artifact_gateway/artifact_gateway/artifacts.py:134-147 | Stopping a list of puts anywhere and starting it again gives the verdict and contents of one run. |
| GatewayRuns.ManifestEntriesAreStored | services/artifact_gateway/artifact_gateway/artifacts.py:111-147 | In a consistent store every file a manifest lists is stored under its key with the listed digest and size. |
| GatewayRuns.FilePutsKeepBacked | services/artifact_gateway/artifact_gateway/artifacts.py:134-140 | A publication stopped among its file puts commits no manifest, and leaves every stored manifest with its files. |
| GatewayRuns.ManifestPutKeepsBacked | services/artifact_gateway/artifact_gateway/artifacts.py:141-147 | The manifest goes in only when every file it lists is there; every other manifest keeps its files. |
| GatewayRuns.NothingIsOverwritten | services/artifact_gateway/artifact_gateway/artifacts.py:400-420 | No step of any operation changes a stored object in place; only a reconciliation removes one. |
| GatewayRuns.SweepIsWhole | services/artifact_gateway/artifact_gateway/artifacts.py:283-301 | A deletion takes a revision's manifest and all its files, or none of them, and none of another organization's. |
| GatewayRuns.EvidenceKeepsBacked | services/artifact_gateway/artifact_gateway/artifacts.py:183-221 | Evidence never lands on a manifest or a file. |
| GatewayRuns.ReconcileKeepsBacked | services/artifact_gateway/artifact_gateway/artifacts.py:238-317 | A whole reconciliation leaves every remaining manifest with its files. |
| GatewayRuns.EventKeepsBacked | services/artifact_gateway/artifact_gateway/artifacts.py:82-317 | No publication, evidence write or reconciliation takes a file from under a stored manifest, even if other manifests of the store dangle. |
| GatewayRuns.RunsAreConsistent | services/artifact_gateway/artifact_gateway/artifacts.py:103-148 | Over every run of publications that may die after any put, evidence writes, and reconciliations that may die between revisions, every stored manifest has all its files. |
| PublicationRuns.PublishPublishes | services/artifact_gateway/artifact_gateway/artifacts.py:82-148 | A successful publication, first or repeated, leaves the revision committed from that very archive. |
| PublicationRuns.PublishedFilesAreServed | services/artifact_gateway/artifact_gateway/artifacts.py:163-181 | Any spelling of a published path is served with the archive's bytes and the manifest's digest, type and policy. |
| PublicationRuns.ListedPathsAreServed | services/artifact_gateway/artifact_gateway/artifacts.py:163-181 | Every path the manifest lists is served under that path. |
| PublicationRuns.PublishedStays | services/artifact_gateway/artifact_gateway/artifacts.py:82-181 | Over any later run that does not delete the revision, every manifest path keeps returning the archive's bytes. |
| PublicationRuns.RetryIsFirstAttempt | services/artifact_gateway/artifact_gateway/artifacts.py:103-148 | A retry after dying at any put has the verdict and the contents of a first attempt; only after the manifest put it is answered with the stored manifest and changes nothing. |
| PublicationRuns.RepeatIsAnswered | services/artifact_gateway/artifact_gateway/artifacts.py:104-109 | After a success the same archive, byte for byte, gets the first manifest, any other a conflict, and the store does not change. |
| RetentionRuns.ReconcileByKey | services/artifact_gateway/artifact_gateway/artifacts.py:250-301 | An object under any revision's prefix goes exactly when the organization is the request's, the revision is a candidate and not retained, and all its objects are older than the cutoff. |
| RetentionRuns.ReceiptLists | services/artifact_gateway/artifact_gateway/artifacts.py:291-317 | The receipt lists, sorted, exactly the revisions deleted, and nothing of them is left. |
| RetentionRuns.InterruptedReconcileConverges | services/artifact_gateway/artifact_gateway/artifacts.py:283-301 | Stopping the deletions after any keys, even inside a revision, and asking again ends in the store of one uninterrupted run; the receipt lists just the revisions that still had objects. |
| RetentionRuns.HalfDeletedRevision | services/artifact_gateway/artifact_gateway/storage.py:119-121 | Losing any set of objects leaves a committed revision backed exactly when the manifest is among them or no listed file is. |
| InterruptionRuns.DeletionsStopped | services/artifact_gateway/artifact_gateway/storage.py:119-121 | After the first n deletions of a revision's listed group its manifest dangles exactly when it is still to come and a file it lists has gone. |
| InterruptionRuns.IndexGone | services/artifact_gateway/artifact_gateway/storage.py:119-121 | Any committed revision dangles once its index page alone is gone. |
| InterruptionRuns.OnlyCaughtManifestsDangle | services/artifact_gateway/artifact_gateway/artifacts.py:291-301 | Over every run, deaths inside a revision's deletions included, the only manifests that can dangle are those of revisions an unfinished reconciliation was deleting. |
| InterruptionRuns.RetryRepairs | services/artifact_gateway/artifact_gateway/artifacts.py:283-317 | Making the interrupted request again leaves no manifest dangling that did not before. |
| ProviderRuns.StepKeepsInv | apps/local_provider/local_provider/processor.py:51-254 | Every effect, reply, write, failure and crash keeps host names and revision ids distinct, every alias row on a live revision row's container, and each stage's claim about what is done. |
| ProviderRuns.RunsKeepInv | apps/local_provider/local_provider/state.py:39-75 | The same over every run. |
| ProviderRuns.TablesWritten | apps/local_provider/local_provider/state.py:107-176 | Each transaction and file write leaves sound tables and what the next stage relies on, including a completed result's claims about rows and containers. |
| ProviderRoutes.RenderRowsExact | apps/local_provider/local_provider/routing.py:74-92 | With distinct service names the rendered file has one entry per row, each that row's, and no others. |
| ProviderRoutes.RenderExact | apps/local_provider/local_provider/routing.py:74-92 | With distinct host names, the file has a router on every row's host name and target, and no other, exactly when no two alias ids are equal without their dashes. |
| ProviderRoutes.StripUuid | apps/local_provider/local_provider/routing.py:78 | A canonical UUID loses its four dashes and nothing else. |
| ProviderRoutes.UuidNamesDiffer | apps/local_provider/local_provider/routing.py:78-79 | Canonical UUIDs never share a service name. |
| ProviderRoutes.DashedIdsCollide | apps/local_provider/local_provider/routing.py:78-79 | With two ids that differ only in dashes the rendered file misses one row's host name or target. |
| ProviderRoutes.RunsKeepUuids | apps/local_provider/local_provider/routing.py:30-68 | Commands that name aliases by UUIDs leave only UUID alias ids, over every run. |
| ProviderRoutes.RoutesAgree | apps/local_provider/local_provider/routing.py:49-100 | However the provider got there, completing an alias or cancellation command leaves exactly one router per alias row, on that row's container and port; an alias command's own router leads to its deployment's container and port. |
| ProviderReceipts.ReceiptsOnlyAdvance | apps/local_provider/local_provider/state.py:77-105 | Over every run no receipt is lost or changes its payload, and a completed one does not change at all. |
| ProviderReceipts.RunIgnoresSent | apps/local_provider/local_provider/processor.py:256-259 | No run depends on the callbacks already sent. |
| ProviderReceipts.RedeliveryIsNoOp | apps/local_provider/local_provider/processor.py:51-59 | Redelivering a completed command anywhere in a run re-sends exactly the stored callback and changes nothing else then or later. |
| ProviderReceipts.DeliveryIsIgnored | apps/local_provider/local_provider/processor.py:51-59 | A payload under a used id that differs in anything at all, or a repeat of a completed alias command, changes nothing then or later. |
| ProviderCallbacks.CompletedWasAccepted | apps/local_provider/local_provider/processor.py:164-247 | Over every run from an empty provider, a command completed as ready, failed or canceled had its callback in hand at a step that accepted it; the callback names the command and its deployment, and a ready one was answered with the recorded revision. |
| ProviderCallbacks.NothingAcceptedNothingCompleted | apps/local_provider/local_provider/processor.py:69-75 | A run without an accepted callback completes nothing but alias commands. |
| ProviderVerdicts.UnsupportedDeployment | apps/local_provider/local_provider/processor.py:77-102 | A source, image, configuration or workload that is not supported is reported as failed under the first reason's code and nothing is started; the command is completed exactly when the report is accepted. |
| ProviderVerdicts.MalformedDeployment | apps/local_provider/local_provider/processor.py:103-108 | A digest that is not `sha256:` and 64 hex digits, or a path without a leading slash, leaves the command incomplete and nothing else changed. |
| ProviderVerdicts.FailingDeployment | apps/local_provider/local_provider/processor.py:109-145 | A runtime that is away changes nothing; a conflict, or a container of another organization or digest, is reported and left alone; a container that never got ready is removed and reported. |
| ProviderVerdicts.ReadyDeployment | apps/local_provider/local_provider/processor.py:147-182 | A container that is up is announced, and completes the command, with its revision row, exactly when that is accepted with the id of a revision no other deployment has. |
| ProviderVerdicts.StoppedCancellation | apps/local_provider/local_provider/processor.py:208-232 | A cancellation without an id, of another organization's container, that cannot be removed, or whose logs exceed 200 entries or one mebibyte stops there and leaves rows, containers and file alone. |
| ProviderVerdicts.ThoroughCancellation | apps/local_provider/local_provider/processor.py:208-247 | Otherwise the container and exactly the deployment's rows go, the logs read are kept, the file is rewritten, and the command is completed exactly when the report is accepted. |
| ProviderVerdicts.AliasCommand | apps/local_provider/local_provider/routing.py:30-68 | An alias command completes exactly when it is whole, its host is a well-formed subdomain of the domain, its port is from 1 to 65535, its revision is the deployment's current one and no other alias has the host; then exactly its row is written and the file rendered. |
| ProviderVerdicts.UnsupportedCommand | apps/local_provider/local_provider/processor.py:66-67 | A command of another type is never completed. |
| ProviderCancellation.FreshForgets | apps/local_provider/local_provider/routing.py:70-100 | A file written from the tables has no router to a deployment without rows. |
| ProviderCancellation.CancellationLeavesNothing | apps/local_provider/local_provider/processor.py:208-247 | When a cancellation completes, its deployment has no container, revision row, alias row or router. |
| ProviderCancellation.CancellationSticks | apps/local_provider/local_provider/processor.py:51-75 | That lasts over any run until an uncompleted deployment command for it is taken up. |
| ProviderCancellation.CancelledStaysGone | apps/local_provider/local_provider/processor.py:208-254 | Both together, from the completing write on, after any earlier run. |
| ProviderConvergence.StepConverges | apps/local_provider/local_provider/processor.py:208-247 | Every step of an interrupted or retried cancellation stays on the way to one final state. |
| ProviderConvergence.CancellationConverges | apps/local_provider/local_provider/processor.py:208-254 | Any run that only delivers one cancellation, however it is interrupted, has on completion deleted exactly its rows and container and rewritten the file; other receipts are untouched. |
| ProviderConvergence.CleanHandlingCompletes | apps/local_provider/local_provider/processor.py:208-247 | An uninterrupted handling, whatever is read of the logs, completes exactly when there is an id, the container is not another tenant's, and the logs read, if any, can be saved. |
| ProviderConvergence.InterruptedCancellationConverges | apps/local_provider/local_provider/routing.py:70-100 | Interrupted anywhere and handled again, it ends with the tables, file, containers and other receipts of one clean handling, whatever logs are read on the two occasions. |
| Provider.StateStore.Receive | apps/local_provider/local_provider/state.py:77-93 | Inserts a processing receipt for a new id; otherwise changes nothing and tells conflict, processing or the stored result. |
| Provider.StateStore.Complete | apps/local_provider/local_provider/state.py:95-105 | Stores the result under an existing id, keeps its payload, touches no other row. |
| Provider.StateStore.SaveRevision | apps/local_provider/local_provider/state.py:107-136 | Inserts or replaces the deployment's row unless another deployment has the revision id; then nothing changes. |
| Provider.StateStore.SaveAlias | apps/local_provider/local_provider/state.py:144-176 | Inserts or replaces the alias row unless another alias has the host name; then nothing changes. |
| Provider.StateStore.Aliases | apps/local_provider/local_provider/state.py:178-182 | Lists exactly the alias ids, in increasing order. |
| Provider.StateStore.SaveLogs | apps/local_provider/local_provider/state.py:184-213 | Saves a snapshot exactly when it is within 200 entries and one mebibyte and the row is not another organization's. |
| Provider.StateStore.RemoveDeployment | apps/local_provider/local_provider/state.py:233-240 | Deletes the deployment's alias rows and revision row together, and nothing else. |
| Provider.RouteWriter.WriteAll | apps/local_provider/local_provider/routing.py:74-111 | The loop over the alias rows writes the rendered file and changes no row. |
| Provider.RouteWriter.Apply | apps/local_provider/local_provider/routing.py:30-68 | Saves the row and rewrites the file when the command is routable and its host name free; otherwise changes nothing. |
| Provider.RouteWriter.RemoveDeployment | apps/local_provider/local_provider/routing.py:70-72 | Deletes the rows, then rewrites the file from what is left. |
| Provider.Processor.Ensure | apps/local_provider/local_provider/processor.py:108-151 | Each runtime reply leads to the specified container and next task. |
| Provider.Processor.Deployment | apps/local_provider/local_provider/processor.py:77-182 | A deployment command's effects in order are the specified steps, up to the result to store; there is one only if the callback was accepted. |
| Provider.Processor.Report | apps/local_provider/local_provider/processor.py:184-206 | A failure is called back once and ends the command exactly when the call is accepted, with the code and the callback it was reported with. |
| Provider.Processor.Cancellation | apps/local_provider/local_provider/processor.py:208-247 | Logs, removal, rows, file and callback in this order are the specified steps; there is a result only if the callback was accepted. |
| Provider.Processor.AliasRouting | apps/local_provider/local_provider/processor.py:249-254 | An alias command is the check, the row and the file, or nothing. |
| Provider.Processor.Replay | apps/local_provider/local_provider/processor.py:256-259 | Sends the stored callback, if the result has one, and answers with the result unless that is refused. |
| Provider.Processor.Process | apps/local_provider/local_provider/processor.py:51-75 | Handling one delivery, whatever is answered on the way, is the step machine run over one script; the answer is decided by the receipt then stored, and an uncompleted deployment or cancellation command whose callback is refused gets a fault and keeps no result. |
| JsonTrees.MergeEqual | app/services/registry.py:479-486 | Deep-merging into an object something equal to it gives something equal to it. |
| JsonTrees.MergeWithout | app/services/registry.py:479-486 | Overriding keys that equal the base may be left out of a deep merge. |
| JsonTrees.MergePaths | app/services/registry.py:479-486 | Under every key path a merge has the override's value where that has one and not both have objects, the keys of both where both have objects, nothing below another value of the override, and the base's value elsewhere. |
| RegistryItems.OverrideArrives | app/services/registry.py:419-437 | Under every path but `enabled`, the merged catalog item says just that of the catalog's item and its override. |
| RegistryItems.OverrideSwitches | app/services/registry.py:428-432 | Its `enabled` is the override's if that has one, null counting as false, and else the catalog's. |
| RegistryItems.NotOverridden | app/services/registry.py:433-437 | A catalog item without an override object is the catalog's, with `enabled` false unless the catalog has true. |
| RegistryItems.MergeListed | app/services/registry.py:419-449 | After the catalog's items come, in file order, exactly the objects under slugs it lacks, with their fields, a slug and an `enabled`. |
| RegistryItems.KeptExactly | app/services/registry.py:266-334 | An override is kept exactly when it is an object, holds the required fields if it is custom, and has a field left or switches off what the catalog enables; exactly the slug, an explicit false and repeated fields and configuration keys are gone. |
| RegistryItems.PrunedListed | app/services/registry.py:260-334 | The kept overrides come in file order, each pruned on its own. |
| Registry.Normalize | app/services/registry.py:249-258 | A file is usable exactly when it is an object whose two sections are missing, empty or objects; missing ones count as empty. |
| RegistryMeaning.EntryKeepsMeaning | app/services/registry.py:267-334 | A catalog item merges the same after pruning exactly when its entry's slug agrees and it does not switch off an enabled item. |
| RegistryMeaning.TrimConfigMerges | app/services/registry.py:336-341 | Dropping equal configuration keys, or an emptied configuration, keeps the merged configuration. |
| RegistryMeaning.CustomKeepsMeaning | app/services/registry.py:271-287 | A complete custom entry is kept and stands for the same item exactly when its slug agrees. |
| RegistryMeaning.CustomsKeepMeaning | app/services/registry.py:438-447 | The appended custom items are the same after pruning exactly when all of them are sound; pruning never adds one. |
| RegistryMeaning.LookupPruned | app/services/registry.py:266-334 | Pruning treats each entry by itself. |
| RegistryMeaning.PruneKeepsMeaning | app/services/registry.py:260-341 | For every catalog with distinct slugs and all overrides, merging after pruning equals merging before exactly when every entry is sound. |
| RegistryUpdates.PruneEntryAgain | app/services/registry.py:266-291 | A kept entry is kept as it is by the next pruning, unless it was only a marker. |
| RegistryUpdates.PruneIsIdempotent | app/services/registry.py:260-334 | Pruning twice is pruning once exactly when no entry does nothing but switch off an item the catalog enables. |
| RegistryUpdates.TrimIsEmptyExactly | app/services/registry.py:276-286 | Nothing is left of an entry exactly when, apart from its slug and an explicit false, every field and every configuration key says what the catalog says. |
| RegistryUpdates.MarkersExactly | app/services/registry.py:287-290 | Pruning leaves a marker exactly when some entry does nothing but switch off an item the catalog enables. |
| RegistryUpdates.SoundOverridesSettle | app/services/registry.py:212-235 | Sound overrides are settled by one pruning and keep their meaning. |
| RegistryUpdates.DisablingEnabledItemIsLost | app/services/registry.py:275-288 | An item the catalog enables is off when merged with an entry that switches it off, and on when that entry is pruned first, whatever else it says. |
| RegistryUpdates.LookupStored | app/services/registry.py:212-235 | Writing with sorted keys and loading prunes each entry twice, whatever the order of the keys. |
| RegistryRuns.MergedResolves | app/services/registry.py:419-449 | Every item of the merged list is the one its slug resolves to. |
| RegistryRuns.ResolvedIsMerged | app/services/registry.py:419-449 | Every slug that resolves does so to an item of the merged list. |
| RegistryRuns.StoredSwitched | app/services/registry.py:114-132 | Switching an entry and storing it changes `enabled` of its item and no other field. |
| RegistryRuns.SwitchOne | app/services/registry.py:114-132 | After switching one item and reloading, its `enabled` is what was asked or stays on if the catalog enables it; an unknown slug still resolves to nothing; no other item changes. |
| RegistryRuns.ReloadChangesNothing | app/services/registry.py:166-182 | Writing and reloading unchanged overrides changes no resolved item. |
| RegistryRuns.ChangesResolve | app/services/registry.py:114-132 | After any sequence of changes to runners and presets every item is as at the start but for `enabled`, which follows the last thing asked of it. |
| Registry.RegistryService.PruneConfigOverrides | app/services/registry.py:336-341 | The popping loop drops exactly the keys that equal the base. |
| Registry.RegistryService.PruneOne | app/services/registry.py:266-334 | The pops on one entry, in the code's order, keep exactly the specified fields, marker or nothing. |
| Registry.RegistryService.PruneOverrides | app/services/registry.py:260-334 | The loop over the entries keeps their order and prunes each. |
| Registry.RegistryService.MergeBySlug | app/services/registry.py:419-449 | Catalog items first with their overrides, then the custom entries in order; under every path but `enabled` each override says what its merged item says. |
| Registry.RegistryService.Load | app/services/registry.py:166-182 | Replaces the overrides in memory by the pruned file and the lists by their merge; a malformed file or an invalid merged item changes nothing in memory. |
| Registry.RegistryService.WriteOverrides | app/services/registry.py:212-220 | Both kinds are pruned, written with strictly sorted keys, read back and pruned again; if the merge does not validate, the file is written and memory is not changed. |
| Registry.RegistryService.SetRunner | app/services/registry.py:114-122 | One runner entry is switched, then everything is stored and reloaded; this is one change of a run. |
| Registry.RegistryService.SetPreset | app/services/registry.py:124-132 | The same for a preset. |
| Registry.Demote | app/services/registry.py:357-397 | In place: a preset ends enabled exactly when it was and some enabled runner can serve it; nothing is switched on. |
| Registry.StayingIsServed | app/services/registry.py:368-397 | A preset that stays has an enabled runner of its category, or, without one, its own runner enabled. |
| Registry.StaysExactly | app/services/registry.py:357-397 | The exact condition in terms of the list of runners, including that a named runner of another category demotes despite a fallback. |
| LifecycleRuns.SetupPointsOnlyAt | app/services/deployment.py:204-248 | Setting up aliases makes nothing but the deployment itself newly reachable. |
| LifecycleRuns.SetupAgain | app/models.py:893-929 | Finalizing the same deployment again leaves its aliases and what they remember alone. |
| LifecycleRuns.RollbackReturns | app/services/deployment.py:584-594 | A production deployment remembers the one it replaced, a rollback returns to it, a second rollback undoes the first; other environments have nothing to return to. |
| LifecycleRuns.QueriesAreSafeExactly | app/workers/tasks/deployment.py:620-658 | The second query finds only deployments out of reach of every alias exactly when the first saw every referenced deployment of the project that is completed and running. |
| LifecycleRuns.OrderlyExactly | app/workers/tasks/deployment.py:410-431 | A deployment may complete exactly when every cleanup between its queries would still find only unreferenced deployments. |
| LifecycleRuns.StepKeepsInv | app/workers/tasks/deployment.py:383-729 | Every step of finalize, failure, cancellation, rollback and cleanup keeps swept and targeted deployments completed and unreferenced. |
| LifecycleRuns.RunKeepsInv | app/workers/tasks/deployment.py:383-729 | The same over every orderly run. |
| LifecycleRuns.CleanupIsSafe | app/workers/tasks/deployment.py:620-690 | At every point of every orderly run no deployment that is current or previous of any alias has been stopped by cleanup. |
| LifecycleRuns.RollbackIsServed | app/services/deployment.py:590-594 | Whatever a rollback then serves has not been stopped by cleanup. |
| LifecycleRuns.RetiredForGood | app/models.py:909-926 | A completed deployment that no alias points at is never pointed at again. |
| LifecycleRuns.FinalizeIsSafeExactly | app/workers/tasks/deployment.py:404-411 | Committing aliases keeps them off swept containers exactly when the deployment was not swept, is canceled, or gets no alias. |
| LifecycleRuns.FinalizeAfterFailure | app/workers/tasks/deployment.py:404-411 | A failed deployment that cleanup has stopped can still be finalized and is then served. |
| LifecycleRuns.FinalizeBetweenQueries | app/workers/tasks/deployment.py:620-658 | A finalize between the two queries goes unseen, and cleanup stops what has just gone live. |
| LifecycleHistory.LastDecisionStands | app/workers/tasks/deployment.py:383-551 | Over every run, the conclusion of a deployment that starts without one is that of the last event to conclude it: succeeded by a status commit after its aliases were set up, failed by the end of a fail job that began, canceled by a cancellation while preparing or deploying or by an abort; none if there was none. |
| LifecycleHistory.CompletedExactlyWhenConcluded | app/workers/tasks/deployment.py:383-551 | Over every orderly run a deployment is completed exactly when it has a conclusion. |
| LifecycleHistory.ContainerSinceDeployed | app/workers/tasks/deployment.py:44-380 | Over every run a deployment keeps its project and environment, and has a container exactly if it had one or was deployed. |
| LifecycleHistory.SetupExactly | app/models.py:893-929 | Each of the three subdomains comes to serve the deployment and no other alias changes; one that served another remembers it exactly when it is the environment's own in production and was not set up as the branch's before; a fresh alias remembers nothing. |
| LifecycleHistory.CleanupFindsExactly | app/workers/tasks/deployment.py:620-654 | Cleanup finds exactly the project's completed deployments with a running container that no alias serves or remembers. |
| LifecycleHistory.CleanupRecords | app/workers/tasks/deployment.py:656-712 | If anything stopped, a stopped, removed or vanished container is recorded as that and a failed stop changes nothing; if nothing did, nothing is recorded; aliases and all other columns stay. |
| Lifecycle.DeploymentJobs.UpdateAlias | app/models.py:893-929 | Creates, leaves or moves one alias; only a production environment alias remembers. |
| Lifecycle.DeploymentJobs.SetupAll | app/services/deployment.py:204-248 | The three upserts in order. |
| Lifecycle.DeploymentJobs.Finalize | app/workers/tasks/deployment.py:383-450 | An uninterrupted finalize is the alias step and the status step: completed and succeeded with its aliases set up, or nothing at all when canceled. |
| Lifecycle.DeploymentJobs.Fail | app/workers/tasks/deployment.py:453-551 | A deployment without a conclusion ends completed and failed, with its container recorded as stopped or removed if it could be; one with a conclusion is not touched. |
| Lifecycle.DeploymentJobs.CancelDeployment | app/services/deployment.py:487-566 | Refused, and nothing changed, exactly when finalizing, failing, completed or concluded; otherwise completed and canceled, with what became of its container. |
| Lifecycle.DeploymentJobs.RollbackTo | app/services/deployment.py:568-609 | Swaps current and previous, refused exactly when there is no alias or nothing to return to. |
| Lifecycle.DeploymentJobs.QueryActive | app/workers/tasks/deployment.py:620-636 | Collects exactly the project's deployments some alias points at. |
| Lifecycle.DeploymentJobs.CleanupInactive | app/workers/tasks/deployment.py:643-712 | The stop loop with its counter is the run of the two queries, one stop per listed deployment and a commit exactly when something was stopped. |
| Lifecycle.CleanupRuns | app/workers/tasks/deployment.py:660-712 | The steps of a whole cleanup come to this: the listed containers that stop are stopped, the states are recorded if any was, and nothing else changes. |
| Lifecycle.NextCleanupFinds | app/workers/tasks/deployment.py:643-712 | The next cleanup finds exactly the deployments whose stop failed, and all of them if nothing was stopped, since nothing was then committed. |
| EnvironmentRuns.EffectiveIsOverride | app/models.py:412-419 | Given unique key and tag pairs, every effective key appears once and the values are the global ones overridden by the environment's. |
| EnvironmentRuns.OverrideIsOverriding | app/models.py:415-418 | Without any assumption, the last value per key is the environment's if it has one, else the global one. |
| EnvironmentEdits.OwnValueShows | app/models.py:412-419 | The last variable of a key tagged with the environment's slug decides the value seen. |
| EnvironmentEdits.GlobalValueShows | app/models.py:412-419 | Without one, the last variable of the key with no tag or an empty one does. |
| EnvironmentEdits.NothingElseShows | app/models.py:412-419 | A key that only other environments have is not seen. |
| EnvironmentRuns.RetaggedEffective | app/models.py:486-491 | Moving variables to an unused slug keeps what the environment sees, in order, and every other slug's list. |
| EnvironmentRuns.RenameKeepsVariables | app/models.py:449-493 | Renaming an active environment to a slug no variable is tagged with keeps its effective keys and values and those of every other active environment. |
| EnvironmentRuns.RenameKeepsValuesExactly | app/models.py:486-491 | Whatever is tagged already, renaming keeps every key's value exactly when each variable of the new tag that comes out last of its key says what was seen before. |
| EnvironmentRuns.RenameOntoTaggedSlug | app/models.py:486-491 | Two variables of one key, one under each tag, with different values: renaming changes the value seen. |
| EnvironmentRuns.RenameChangesOthersExactly | app/models.py:449-493 | Renaming any environment, active or deleted, changes what another active one sees exactly when they share a slug and a variable is tagged with it. |
| EnvironmentRuns.RenamingDeletedTakesVariables | app/models.py:449-493 | Renaming a deleted environment whose slug is in use again changes what the active one sees. |
| EnvironmentRuns.DeleteKeepsOthers | app/models.py:495-519 | Deleting leaves the slug with the global variables and every other slug with its own. |
| EnvironmentRuns.DeleteChangesOthersExactly | app/models.py:495-519 | Deleting any environment, even one already deleted, changes what another active one sees exactly when they share a slug and a variable is tagged with it. |
| EnvironmentRuns.RunKeepsInv | app/models.py:432-519 | Every allowed run of edits keeps production active and first, ids distinct, slugs non-empty and active slugs distinct. |
| EnvironmentRuns.ActivesOverRuns | app/models.py:521-524 | So the active environments are never empty, start with production, and have distinct slugs. |
| EnvironmentRuns.UpdateKeepsSlugsExactly | app/models.py:464-475 | An update keeps the slugs of active environments distinct exactly when it does not give an active one the empty slug of another. |
| EnvironmentEdits.CreatesExactly | app/models.py:432-447 | A new environment with the given values comes last and is active, refused exactly when an active one has the slug. |
| EnvironmentEdits.UpdateRefusedExactly | app/models.py:449-475 | An update is refused exactly when it would change production's name or slug, or take the slug of another active environment. |
| EnvironmentEdits.UpdatesExactly | app/models.py:477-493 | Otherwise it replaces name, slug, color and branch of that environment only, and moves along exactly the variables tagged with the old slug when the slug changes to another. |
| EnvironmentEdits.DeletesExactly | app/models.py:495-519 | Deleting is refused exactly for production; otherwise the environment is only made inactive and exactly the variables tagged with its slug go. |
| EnvironmentEdits.MissingIsNoError | app/models.py:449-519 | An id no environment has is no error and changes nothing, except that production is never deleted. |
| EnvironmentRuns.WildcardExactly | app/utils/environment.py:16-32 | A pattern takes exactly the branches with some text in place of its `*`, and those too short in which its two ends overlap. |
| EnvironmentRuns.OverlapOnlyInside | app/utils/environment.py:23-28 | A `*` at either end of a pattern has no such overlap. |
| EnvironmentRuns.OverlapExample | app/utils/environment.py:29-32 | `a*a` takes `a`, which has no room for two copies. |
| EnvironmentEdits.MatchesExactly | app/utils/environment.py:16-32 | A pattern takes its own text and what starts and ends as it does around one `*`: one at the start, else one at the end, else the first. |
| EnvironmentEdits.GroupsInOrder | app/utils/environment.py:37-65 | Each group lists the branches that belong to it where and as often as they are listed. |
| EnvironmentRuns.FirstMatchIsFirst | app/utils/environment.py:1-34 | A branch goes to the first environment that takes it, production by its exact branch only, and to none exactly when none does. |
| EnvironmentRuns.GroupsPartition | app/utils/environment.py:37-65 | Every branch is in its home group as often as it is listed and in no other group. |
| EnvironmentRuns.HomeIsFirstMatch | app/utils/environment.py:53-63 | Unless an environment is called `unmatched`, the home tells exactly which environment took the branch, or that none did. |
| Environments.ProjectRecord.EffectiveVars | app/models.py:412-419 | The two loops compute the specified list. |
| Environments.ProjectRecord.CreateEnvironment | app/models.py:432-447 | Appends an active environment, refused exactly when an active one has the slug. |
| Environments.ProjectRecord.UpdateEnvironment | app/models.py:449-493 | Replaces the fields and retags the variables, or refuses and changes nothing. |
| Environments.ProjectRecord.Retag | app/models.py:486-491 | The loop moves every variable of one slug and leaves the rest. |
| Environments.ProjectRecord.DeleteEnvironment | app/models.py:495-519 | Drops the slug's variables and deactivates the environment, refused for production. |
| Environments.PatternTakes | app/utils/environment.py:16-32 | The chain of tests decides the specified match. |
| Environments.EnvironmentForBranch | app/utils/environment.py:1-34 | The scan returns the first environment that takes the branch. |
| Environments.GroupBranches | app/utils/environment.py:37-65 | The loop builds exactly the specified groups, one list per environment and one for the rest. |
| Authentication.RequestAuthenticator.Valid | services/artifact_gateway/artifact_gateway/authentication.py:24-65 | Accepts exactly a request that is signed, has a UUID for an id, is at most 60 seconds from its timestamp, and whose id is not remembered from the last 60 seconds; any other check that fails leaves the map as it was. |
| Authentication.AcceptedIsGenuine | services/artifact_gateway/artifact_gateway/authentication.py:24-55 | Over every run and any clock, an accepted arrival is signed, has a UUID for an id and a timestamp, and comes at most 60 seconds before or after that. |
| Authentication.RefusalsLeaveNoTrace | services/artifact_gateway/artifact_gateway/authentication.py:24-55 | An arrival that fails any of these is refused and can be left out of any run without changing what is remembered. |
| Authentication.SeenExactly | services/artifact_gateway/artifact_gateway/authentication.py:56-64 | Whatever the clock does, the map holds an id exactly when some acceptance of it has not been forgotten, and at its time. |
| Authentication.AcceptedForAnyClock | services/artifact_gateway/artifact_gateway/authentication.py:38-65 | Whatever the clock does, a request is accepted exactly when it is signed, has a UUID for an id, is at most 60 seconds from its timestamp, and no acceptance of its id within 60 seconds has escaped forgetting by an arrival more than 60 seconds ahead of it. |
| Authentication.EarlyRepeatWasForgotten | services/artifact_gateway/artifact_gateway/authentication.py:56-64 | An id accepted twice within 60 seconds was forgotten by an arrival in between whose clock was more than 60 seconds ahead. |
| Authentication.AcceptedExactly | services/artifact_gateway/artifact_gateway/authentication.py:38-65 | While the clock never goes back, a request is accepted exactly when it is signed, has a UUID for an id, is at most 60 seconds from its timestamp, and the whole history has not accepted its id within 60 seconds. |
| Authentication.AcceptancesFarApart | services/artifact_gateway/artifact_gateway/authentication.py:56-64 | Two acceptances of one id are more than 60 seconds apart. |
| Authentication.AtMostTwice | services/artifact_gateway/artifact_gateway/authentication.py:38-65 | One signed request is accepted at most twice over any run. |
| Authentication.TwiceOnlyWhenEarly | services/artifact_gateway/artifact_gateway/authentication.py:38-65 | A second acceptance is possible only when the request is signed for later than it first came. |
| Authentication.ClockGoingBack | services/artifact_gateway/artifact_gateway/authentication.py:56-64 | If the clock goes back, an id forgotten meanwhile is accepted again within the minute. |

## Left out

- Paths.NormalizePath: the comparison with the text of a pure POSIX path is modelled by collapsing empty and `.` components, and surrogates that cannot be encoded are not modelled.
- RetentionRuns.InterruptedReconcileConverges: assumes that nothing is published between the attempts; the lock of the service does not cover a restart.
- RetentionRuns.ReceiptLists: the cutoff is digested in whole seconds, so two cutoffs within one second count as the same request, as in the service.
- InterruptionRuns.RetryRepairs: assumes that the request is repeated before anything else happens.
- ProviderRuns.StepKeepsInv: commands are handled one at a time, as by the single consumer of the service.
- ProviderConvergence.CancellationConverges: log rows and the callbacks sent may differ between an interrupted and a clean handling and are not compared.
- RegistryMeaning.PruneKeepsMeaning: equality is that of decoded JSON values (true equals one); NaN, which JSON does not have, is not modelled.
- RegistryRuns.ChangesResolve: items are resolved before validation drops unknown fields, and presets before demotion, which is `Registry.Demote`.
- Registry.RegistryService.Load: validation itself is a parameter; the catalog file is loaded once and taken as valid.
- LifecycleRuns.CleanupIsSafe: assumes orderly runs, in which nothing moves a completed deployment on and none completes between a cleanup's two queries that will then take it for inactive; the lemmas beside it show what happens otherwise.
- Lifecycle.DeploymentJobs.CleanupInactive: the order in which the database lists the inactive deployments is a parameter.
- EnvironmentRuns.RunKeepsInv: assumes that generated ids are fresh and that the form has refused an empty slug.
- Authentication.AcceptedExactly: assumes a clock that never goes back, unlike `Authentication.AcceptedForAnyClock`; the HMAC and header parsing are part of the request's description.
- The HTTP layers, Docker, Traefik, the object store's protocol, SQLite and Postgres themselves, Redis, Loki, DNS, OAuth and email.
- The delayed container deletion job, project and team deletion, and the traffic configuration file of the main application.
- The log formatter, the names and limits of containers, and reading a stored manifest back as such.
- The registry's download of a catalog, its provenance flags and its warnings.
- The control plane, the orchestrator and the build controller.
- Two writers of the same environment list at once: the request handlers load, edit and commit the whole list.
