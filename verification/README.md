# Verified model of the IPFS CSI driver's volume and snapshot lifecycle

This project models, in Dafny, what the CSI driver for IPFS does between a Kubernetes
cluster and a Kubo node: it provisions volumes from a CID or in the node's mutable file
system (MFS), stages their content into local directories, brings changes back, takes and
restores snapshots, and keeps exactly the right CIDs pinned while all this goes on. It
proves properties of whole runs of that machine, in which every call to the daemon, to
the informers and to the local file system may fail at any moment, before or after it
took effect.

`dafny verify dfyconfig.toml` checks everything.

## How the model is laid out

| module | what it holds |
|---|---|
| `Results`, `Integers`, `Orders`, `Counting` | outcomes and CSI codes, the range of int64, lexicographic orders and sorted enumeration, counting in listings |
| `Paths` | `path.Clean`, the confinement test on MFS paths, sanitized names |
| `Trees` | directory trees, subtrees, the lexical walk, writing a download into a directory |
| `Ipfs` | pins, blocks and MFS; single daemon calls; import, export, download; the `Client` object |
| `Addressing` | a witness that content addressing as assumed exists |
| `VolumeStore`, `SnapshotStore` | lookups and listings over PersistentVolumes and VolumeSnapshotContents |
| `Locks` | the try-lock table and every interleaving of controller calls |
| `Controller`, `NodeService` | the RPCs as functions of the IPFS state |
| `DriverService` | the driver object: the RPCs as imperative methods under their locks, proved against those functions |
| `Lifecycle` | what one creation guarantees |
| `World`, `Soundness` | whole runs and the invariant all reachable states have |
| `Pins`, `ExactPins`, `Isolation`, `Durability` | the theorems over runs |
| `Listing`, `Statistics`, `MountOptions` | paging, saturating usage figures, mount options |

The environment of a run is a value of type `Env`. Its `reply` decides for every call at
every moment whether it succeeds, is refused, or takes effect and still reports an error;
`remote` says what other peers can serve; `debris` what a download or a clearing that
breaks off halfway leaves in a directory; `cidOf` and `content` are content addressing.
All theorems quantify over every environment with `Lawful` content addressing: every CID
stands for one tree, and a tree's own CID stands for that tree; `Addressing.LawfulExists`
shows that every schedule has one. Nothing is assumed about failures unless a theorem says
so, and then only about the calls made between the two moments it names (`NoFailure`).

A run is a sequence of steps: creating and deleting volumes, taking and dropping
snapshots, staging, a pod writing, unstaging, garbage collection (which may drop anything
that is neither pinned nor part of MFS), and volumes and snapshots that somebody else
brings in, with whatever attributes (`World.SurroundingsAct`). Deleting includes volumes that are not listed; every
RPC includes its failing outcomes.

## Main results

* `Durability.SnapshotDurability`: take a snapshot whose pin call works, then let anything
  happen but the deletion of that snapshot; its content is still held locally, is the
  source's tree at the moment it was taken, and restoring it shows exactly that tree.
* `Pins.UnpinNeverHurts`, `Pins.PinSafety`: no step ever takes away a pin that a remaining
  object needs, whoever brought it in; in every reachable state everything that should be
  pinned is.
* `ExactPins.ReferenceCountingIsExact`: with pin, unpin and list calls that work during the
  run, its pin set is exactly the set of referenced CIDs; `ExactPins.StepExact` says for every
  kind of step and every schedule exactly what that takes.
* `Ipfs.ImportResult`, `Ipfs.ImportLeaves`, `Ipfs.MirrorExactly`, `Ipfs.FailedImportRecovers`:
  what an import does for every tree, target and failure schedule, what a failed one leaves,
  exactly when a successful one is a mirror, and that a failed one can be repeated.
* `NodeService.UnstageKeepsExactly`, `NodeService.StageLeaves`,
  `NodeService.StageUnstageRoundTrip`: what staging leaves behind for every schedule, and
  exactly when a volume's tree survives an unstage, successful or not.
* `Durability.WorkReachesNextPod`, `Isolation.NextPodSeesLastUnstage`: each stage shows the
  tree of the last unstage, over runs with any number of volumes at explicit or automatic
  places.
* `Isolation.RunSpares`, `Isolation.DeleteSparesExactly`, `Isolation.RunIsolated`,
  `Isolation.AutoRunsAreApart`: a place no step comes near keeps its tree, coming near does
  harm, volumes kept apart never touch each other, and automatic volumes keep apart.
* `Isolation.RunsStayUnderRoot`: no run writes outside the MFS root.
* `Paths.AcceptedExactly`, `Paths.NormalizationConfines`, `Paths.RefusedExactly`,
  `Paths.NamesCollideExactly`: path normalization, for every path and every root, and when
  two names share an identifier.
* `Locks.LocksTrackCalls`, `Locks.WorkIsExclusive`, `Locks.PerformAll`: lock discipline
  under every interleaving, followed by the real lock table.
* `Lifecycle.CreateOutcome`, `Lifecycle.CreateVolumeRepeats`: when a creation succeeds, and
  exactly when repeating it changes nothing, whatever the repetition reports.
* `Listing.PagesAddUpExactly`, `VolumeStore.LookupRefinesScan`,
  `Statistics.StatsAreConsistent`, `MountOptions.BuildMountOptions`: the smaller algorithms.

## Assumptions

* In runs, each RPC is one step together with the object update it causes. The locks are
  per volume or snapshot key, not per CID, so this is needed:
  `ExactPins.InterleavedCheckLosesPin` says exactly when a pin is lost otherwise.
* CIDs have one spelling each; references are compared as strings.
* Handles of listed volumes are unique, those of this driver are not empty, and snapshot
  objects have distinct names. A volume is created only while its handle is not listed;
  `Isolation.CollidingCreateKeepsExactly` says exactly when the listed volume's tree survives
  otherwise. The sidecars call the driver only for its own volumes. The new PersistentVolume holds
  the returned context unchanged.
* A snapshot is deleted while its VolumeSnapshotContent is still listed;
  `ExactPins.UnlistedDeleteHurts` says exactly when it does harm otherwise.
* For confinement, automatic places and the outcome of creations only: the cleaned MFS root
  has at least one component and does not begin with `..` (`Paths.SafeRoot`); the default is
  `/csi-volumes`. For confinement, volumes somebody else brings in lie under the root too.
* For exactness only: the node starts without pins, nobody else pins, and what is brought in
  is pinned already (`ExactPins.AppearanceExact` says that this is exactly what it takes).
* Garbage collection does not run inside an import.

## Where the code does not do what one might expect

Each of these is a theorem with the exact condition under which the property holds.

* A failed removal is only logged, so an import may succeed and leave stale entries
  (`Ipfs.MirrorExactly`; such a case is `Ipfs.StaleEntriesSurvive`).
* An unstage replaces the volume's tree by whatever the staging directory holds
  (`NodeService.UnstageKeepsExactly`). Staging that fails after clearing leaves that empty
  or half filled (`NodeService.StageLeaves`), so failing to stage and unstaging then can
  empty the volume (`NodeService.UnstageAfterFailedStageErases`), and so can an unstage whose
  staging directory is gone (`NodeService.UnstageWithoutStagingErases`).
* A failing unstage may have removed the tree already, even if the staging directory held the
  very same one (`NodeService.UnstageCanLoseAnyTree`; what it leaves is `Ipfs.ImportLeaves`).
* Repeating a creation is not always harmless. The repetition of a restore that removes the
  tree and then fails leaves the volume empty, half filled or gone; stale entries a first
  removal failed to remove go the second time; and under the best-effort policy a pin may
  appear late (`Lifecycle.CreateVolumeRepeats`; such cases are `Lifecycle.RepeatLosesVolume`,
  `Lifecycle.RepeatDropsStaleEntries` and `Lifecycle.RepeatPinsLate`).
* A deletion whose volume is found but whose reference listing fails, or whose unpin is
  refused, leaks the pin, since the object goes all the same (`ExactPins.DeleteExact`).
* Explicit paths may lie inside each other, and deleting or unstaging a volume then erases or
  changes the other one (`Isolation.DeleteSparesExactly`, `Isolation.UnstageSparesExactly`,
  `Isolation.OuterDeleteErasesInner`).
* With the root `/` only the path `/` itself is accepted, and a relative path that climbs
  above its start is refused even if it comes back under the root
  (`Paths.AcceptedExactly`, `Paths.RefusedExactly`).
* Different names can share one volume identifier (`Paths.NamesCollideExactly`), and a volume
  identifier the driver never issued can collide with a snapshot's lock key
  (`Locks.ForeignIdCollides`).
* Without the snapshot API a snapshot call can pin a CID that nothing records
  (`ExactPins.UnrecordedSnapshotLeaks`).
* Clamped totals can be smaller than used plus available (`Statistics.StatsAreConsistent`;
  such a case is `Statistics.ClampedTotalBreaksSum`).
* Different volumes with the same identifier can hide each other between pages
  (`Listing.PagesAddUpExactly`), and different volumes with the same handle make the lookup
  differ from a scan (`VolumeStore.LookupRefinesScan`).

One comment in the repository says something else than the code; the model follows the
code. Import failures in NodeUnstageVolume are said to be logged as warnings
(pkg/driver/node.go:66), but they are returned as errors (102-108).

## Model

| member | source | states |
|---|---|---|
| `Durability.SnapshotDurability` | pkg/driver/controller.go:193-233 | Over every run: once a snapshot was taken with a working pin, and whatever happens then except its deletion (source changed or deleted, other snapshots, objects brought in, garbage collection, failures), its handle stands for the source's tree at that moment, the content is held locally, a volume it is successfully restored into shows exactly that tree if and only if nothing stale is left at its place, and a restore none of whose calls fails into a makeable directory succeeds. |
| `Durability.WorkReachesNextPod` | pkg/driver/node.go:67-117 | Over every run, explicit paths included: after a successful unstage of a read-write volume, and anything that does not come near its place, the volume is still listed, a successful stage anywhere shows the unstaged tree, and a stage none of whose calls fails succeeds. |
| `Durability.RunKeepsRecord` | pkg/driver/controller.go:530-572 | Only its own deletion takes a snapshot off the record, over any continuation of a run. |
| `Durability.TakenOnRecord` | pkg/driver/controller.go:499-523 | A working snapshot call records the handle it returned, together with the source's tree at that moment. |
| `Durability.RunKeepsShown` | pkg/driver/node.go:85-109 | While no step comes near its place, a volume stays listed and MFS goes on showing the same tree there. |
| `Pins.UnpinNeverHurts` | pkg/driver/utils.go:109-178 | Whatever the policy, schedule and history, given only unique non-empty handles and distinct object names: when a step takes a pin away, no volume or snapshot left afterwards refers to that CID; covers CIDs shared between volumes, between a volume and a snapshot, and between two snapshots, statically provisioned or not. |
| `Pins.PinSafety` | pkg/driver/controller.go:546-569 | In every reachable state, every listed snapshot whose CID was pinned when it was taken or brought in has it pinned, and under the strict policy so has every listed volume with pinning on, except one brought in while its CID was not pinned. |
| `Pins.DeleteUnpins` | pkg/driver/utils.go:115-130 | A volume deletion unpins only what nothing left refers to. |
| `Pins.DropUnpins` | pkg/driver/controller.go:546-569 | A snapshot deletion unpins only what nothing left refers to, the deleted snapshot still being listed while it counts. |
| `Pins.SnapshotEndures` | pkg/driver/controller.go:505-507 | After any run a listed, pinned snapshot is in the local repository and stands for the tree its source had when it was taken. |
| `Pins.RestoreReproduces` | pkg/driver/controller.go:140-144 | A volume successfully created from such a snapshot shows exactly that tree if and only if nothing stale is left at its place, and the creation succeeds when none of its calls fails and its directory can be made. |
| `Pins.VolumeRefsMeaning` | pkg/driver/utils.go:149-158 | The volume count is positive if and only if a listed volume of the driver other than the excluded one records the CID and does not say `false` for pinning. |
| `Pins.SnapshotRefsMeaning` | pkg/driver/utils.go:167-172 | The full snapshot count is positive if and only if a listed snapshot of the driver stands for the CID, by its status or else by its spec. |
| `Pins.OtherSnapshotsMeaning` | pkg/driver/utils.go:172-177 | With the deleted snapshot still listed, the reduced count is positive if and only if another snapshot stands for the CID. |
| `ExactPins.ReferenceCountingIsExact` | pkg/driver/controller.go:558-569 | In every run from an unpinned start, with the snapshot API, pin, unpin and list calls that work while it lasts, and whatever is brought in pinned already, a CID is pinned if and only if a listed volume with pinning on or a listed snapshot refers to it, whatever else fails. |
| `ExactPins.StepExact` | pkg/driver/controller.go:99-108 | For every kind of step, every policy and every schedule, from an exact state: the pin set stays exact if and only if the condition of that kind of step holds. |
| `ExactPins.TightRunsAreExact` | pkg/driver/controller.go:558-569 | A run from an unpinned start whose every step meets its condition ends with an exact pin set. |
| `ExactPins.CreateExact` | pkg/driver/controller.go:99-108 | A creation keeps the pin set exact if and only if its pin call is not reached, not needed or works, fails without effect under the strict policy, or takes effect under the best-effort policy. |
| `ExactPins.DeleteExact` | pkg/driver/utils.go:115-130 | A deletion keeps the pin set exact if and only if it does not find the volume, the volume kept no pin, something else needs the CID, or every listing of the count is answered and the unpin takes effect. |
| `ExactPins.DropExact` | pkg/driver/controller.go:546-571 | Deleting a snapshot keeps the pin set exact if and only if its count fails, and with it the call, something else needs the CID, or the unpin takes effect. |
| `ExactPins.TakeExact` | pkg/driver/controller.go:499-507 | Taking a snapshot keeps the pin set exact if and only if the call gets to no CID, the CID was pinned already, or it is pinned and recorded or neither. |
| `ExactPins.CleanupExact` | pkg/driver/utils.go:109-136 | For every schedule, cleanup unpins if and only if the volume had pinning on, both counts are zero, the listings are answered and the unpin takes effect. |
| `ExactPins.DropPins` | pkg/driver/controller.go:546-571 | For every schedule, a snapshot deletion succeeds if and only if its count is answered, and unpins if and only if then both counts are zero and the unpin takes effect. |
| `ExactPins.AppearanceExact` | pkg/driver/utils.go:149-172 | Bringing in a volume or a snapshot keeps the pin set exact if and only if it cannot be listed (its handle or name is taken or empty) or what it refers to is pinned already. |
| `ExactPins.UnrecordedSnapshotLeaks` | pkg/driver/utils.go:160-165 | Without the snapshot API, a snapshot call keeps the pin set exact if and only if it gets to no CID, the CID of the source was pinned already, or the pin is refused. |
| `ExactPins.UnlistedDeleteHurts` | pkg/driver/utils.go:172-175 | Called for a CID whose own object is gone, a deletion takes away a pin that is still needed if and only if no volume holds the CID and exactly one listed snapshot does. |
| `ExactPins.InterleavedCheckLosesPin` | pkg/driver/utils.go:115-129 | For any creation between the reference check of a deletion and its unpin: the created volume's CID stays pinned if and only if it is another CID, the count fails or finds a reference, or the unpin is refused. |
| `Soundness.RunSound` | pkg/driver/controller.go:146-148 | In every reachable state, whatever the root and whatever is brought in, MFS is a tree, pinned content is held, owned volumes have unique non-empty handles, and every listed snapshot stands for the tree it was taken of. |
| `Soundness.StepSound` | pkg/driver/controller.go:39-174 | Every kind of step, with every failure, keeps that invariant. |
| `Soundness.RunWellFormed` | pkg/driver/controller.go:78-148 | In every run every listed volume is read-only if and only if it records a CID, and else has a normalized path under the root, provided those somebody else brings in are. |
| `Soundness.TakeEffects` | pkg/driver/controller.go:482-524 | A snapshot call succeeds if and only if the volume is found and its path resolves; it returns the CID of the source's present tree and the source's recorded capacity, or one gibibyte if there is none, adds that one pin unless the pin is refused, leaves MFS alone, and adds nothing on failure. |
| `Soundness.DropEffects` | pkg/driver/controller.go:546-571 | A snapshot deletion changes at most the one pin, and then both counts were zero. |
| `Soundness.DeleteEffects` | pkg/driver/controller.go:253-266 | Deleting a listed volume either fails in the lookup with nothing changed or cleans up exactly that volume's attributes. |
| `Soundness.DeleteFinds` | pkg/driver/controller.go:253-262 | Deleting a listed volume succeeds if and only if its lookup does. |
| `Soundness.DeletedTreeIsGone` | pkg/driver/utils.go:131-135 | A successful deletion of a read-write volume leaves nothing at its path, everything elsewhere and all pins if the removal takes effect, and MFS as it was if not. |
| `Soundness.NotListedEffects` | pkg/driver/controller.go:254-258 | Deleting a volume that is not listed changes nothing and succeeds if and only if the identifier is given and the list call works. |
| `Controller.DeleteErrors` | pkg/driver/controller.go:240-262 | An invalid argument is reported exactly for an empty identifier, and an internal error exactly when the lookup needs the list call and it fails. |
| `Controller.SnapshotErrors` | pkg/driver/controller.go:463-503 | An invalid argument is reported if and only if a name is missing or the volume found has no `mfspath`, not found if and only if the lookup says so; all else is an internal error. |
| `Controller.DropErrors` | pkg/driver/controller.go:533-557 | An invalid argument for an empty identifier, a failed precondition exactly without the snapshot API, an internal error exactly for a failing listing. |
| `Soundness.CleanupPins` | pkg/driver/utils.go:115-130 | Cleanup changes at most the volume's own pin, only with pinning on and only when both counts were zero. |
| `Soundness.CleanupMfs` | pkg/driver/utils.go:131-135 | For any attributes, cleanup changes MFS only at and below the recorded path and only if the volume is not read-only, and for a read-write volume leaves exactly what the removal leaves. |
| `Soundness.OursFound` | pkg/driver/store/persistent_volume.go:63-81 | A lookup of an owned volume finds it whenever the list call works, reports its own attributes, and otherwise an internal error, never not-found. |
| `Soundness.UnstageEffects` | pkg/driver/node.go:85-109 | Unstaging an owned volume imports at the place it writes to or does nothing; after a success whose removal took effect MFS shows the staged tree. |
| `Isolation.RunsStayUnderRoot` | pkg/driver/utils.go:193-209 | Every run, explicit paths included, leaves everything outside the MFS root as it was, except that missing ancestors of the root may appear, provided volumes somebody else brings in lie under the root. |
| `Isolation.StepTouches` | pkg/driver/controller.go:110-138 | For any volumes, a step changes MFS only at and below one place, that of the volume it is about; one that does not find its volume, staging, snapshots, writing, garbage collection and appearing objects change nothing. |
| `Isolation.RunSpares` | pkg/driver/controller.go:110-138 | Over every run, wherever volumes lie: a place that no step comes near, from above or below, keeps its tree. |
| `Isolation.DeleteSparesExactly` | pkg/driver/utils.go:131-135 | A deletion whose removal takes effect leaves the tree at any other place as it was if and only if the deleted volume's place is neither above nor below it. |
| `Isolation.UnstageSparesExactly` | pkg/driver/node.go:100-109 | An unstage that imports, successful or not, leaves the tree at any place as it was if and only if what is then seen at the volume's own place agrees with it where the two places overlap. |
| `Isolation.OuterDeleteErasesInner` | pkg/driver/controller.go:110-116 | Deleting a volume leaves nothing of a volume that lies inside it. |
| `Isolation.RunDisjoint` | pkg/driver/controller.go:110-138 | If every new place is neither above nor below that of a listed volume, no two listed volumes ever lie one inside the other. |
| `Isolation.AutoPlacesApart` | pkg/driver/controller.go:124-138 | Different identifiers give automatic places neither of which is a prefix of the other. |
| `Isolation.AutoPlaceOf` | pkg/driver/controller.go:126 | The default path of a named volume is always accepted and is the place read off its identifier. |
| `Isolation.AutoRunsAreApart` | pkg/driver/controller.go:124-138 | In every run of automatic volumes each new place is neither above nor below that of a listed volume, so all results for volumes kept apart apply. |
| `Isolation.CollidingCreateKeepsExactly` | pkg/driver/controller.go:60-148 | A creation under a name that collides with a listed automatic volume works on that volume's tree, which survives if and only if no import is reached, nothing was removed and nothing else laid over it, or the very same tree got back. |
| `Isolation.StepIsolated` | pkg/driver/utils.go:131-135 | Among volumes kept apart, explicit or automatic, creating, restoring into, unstaging or deleting one leaves every other volume's tree unchanged. |
| `Isolation.RunIsolated` | pkg/driver/controller.go:60-60 | Over every run that keeps volumes apart: while no step is about a listed volume, it stays listed at its place and its tree does not change. |
| `Isolation.RunSaves` | pkg/driver/node.go:100-109 | In every reachable state of runs that keep volumes apart, failed deletions included, MFS shows for each volume the tree it was last successfully unstaged with. |
| `Isolation.NextPodSeesLastUnstage` | pkg/driver/node.go:33-61 | In every run that keeps volumes apart, a successful stage of a read-write volume shows the tree it was last unstaged with, and one none of whose calls fails succeeds. |
| `Lifecycle.CreatedIsWellFormed` | pkg/driver/controller.go:78-148 | Every created volume is read-only if and only if it records a CID, and otherwise has a normalized path under the root. |
| `Lifecycle.CreatedContext` | pkg/driver/controller.go:57-60 | Whatever the root: the CID, the pin decision and all other parameters are stored as requested, and deletion and unstage will write to the place just prepared, or nowhere for a CID. |
| `Lifecycle.CreatedVolume` | pkg/driver/controller.go:146-173 | What a successful creation returns, on the request's own fields: `ipfs-volume-` and the sanitized name, the requested capacity and snapshot, and a context with `cid`, `mfspath` and `readonly` written and every other parameter kept; a read-write volume writes to the place its own `mfspath` denotes, or to the one made from its name, and one with a CID nowhere. |
| `Lifecycle.PlaceIsWanted` | pkg/driver/controller.go:110-138 | An accepted path denotes the place the request's `mfspath` denotes, or that of the root and the sanitized name if there is none, whatever the root. |
| `Lifecycle.PathRefused` | pkg/driver/controller.go:110-130 | A path is refused if and only if the request gives an `mfspath` that denotes a place outside the root or climbs above its start; a default path never is. |
| `Lifecycle.PathIsConfined` | pkg/driver/controller.go:110-138 | Every path handed to MFS at creation is absolute, a fixed point of normalization, under the root, and denotes the place asked for. |
| `Lifecycle.CleanupDoesOneThing` | pkg/driver/utils.go:109-136 | Cleanup of a well-formed volume never changes both pins and MFS. |
| `Lifecycle.CreatePins` | pkg/driver/controller.go:99-108 | A creation adds the pin of its own CID if and only if it gets as far as pinning and the call takes effect, and no other; one with pinning succeeds if and only if it gets that far and the call works or the policy is best effort; a `pinning` parameter of `false` leaves pins unchanged, and with any other or none a success under the strict policy has the CID pinned. |
| `Lifecycle.CreateMfs` | pkg/driver/controller.go:110-144 | A read-write creation changes nothing outside its path but missing ancestors, and success means the directory is there. |
| `Lifecycle.CreateLeavesMfs` | pkg/driver/controller.go:83-116 | A creation from a CID or with a refused path leaves MFS alone. |
| `Lifecycle.CreateOutcome` | pkg/driver/controller.go:39-174 | An invalid argument is reported if and only if the request is unacceptable or its own `mfspath` denotes a place outside the root or climbs above its start; if none of its calls fails a creation succeeds if and only if the request is acceptable and its CID is reachable, or the directory it asks for can be made and its snapshot is served. |
| `Lifecycle.CreateErrors` | pkg/driver/controller.go:88-97 | Not found is reported if and only if a working lookup misses the CID, or the snapshot after the directory was made; every other failure of a call is an internal error. |
| `Lifecycle.CreateVolumeRepeats` | pkg/driver/controller.go:33-174 | Repeating a successful request, in all three kinds and whatever the repetition reports: an equal volume whenever it succeeds; the same pins if and only if it does not get as far as pinning, the CID was pinned already or the pin is refused; the MFS tree it leaves, which is the same if and only if there is no snapshot, it does not get as far as the import, the second removal takes no effect, or the directory is made again, all of the content gets into it and the first time left nothing stale; how far it gets after a removal is decided by the replies; and success when none of its calls fails and the content is there. |
| `Lifecycle.RepeatedMfs` | pkg/driver/controller.go:110-148 | The read-write half of that, for volumes with and without a snapshot. |
| `Lifecycle.CreateKeepsExactly` | pkg/driver/controller.go:110-144 | What a creation does to a directory that stands at its place already, whatever it reports: nothing without a snapshot or before the import is reached; else the tree becomes what the import got done, in place of the old tree, over it or not at all, and survives if and only if that is the old tree or part of it. |
| `Lifecycle.RestoreLeaves` | pkg/driver/controller.go:193-233 | What every restore leaves, failing ones included. |
| `Lifecycle.RepeatLosesVolume` | pkg/ipfs/client.go:484-490 | A failing family: a repeated restore that removes the tree and then fails to make the directory reports an error and leaves nothing of the volume. |
| `Lifecycle.RepeatDropsStaleEntries` | pkg/ipfs/client.go:483-486 | The failing family for MFS: a first restore over stale entries it failed to remove, and a second one that removes them. |
| `Lifecycle.RepeatPinsLate` | pkg/driver/controller.go:100-103 | The failing family for pins: under best effort, a CID the first call failed to pin is pinned by the second. |
| `Lifecycle.RestoreStages` | pkg/driver/controller.go:193-222 | A restore comes down to importing the snapshot's whole content if and only if its first three calls work and the content is served; else it gives up with MFS untouched. |
| `Lifecycle.RestoreResult` | pkg/driver/controller.go:193-233 | A restore lays the snapshot's content over what the removal left, touches nothing elsewhere, never succeeds without the content and succeeds with it when none of its calls fails. |
| `Lifecycle.RestoreMirrors` | pkg/driver/controller.go:224-230 | After a successful restore all of the snapshot's content is there, and nothing else if and only if the removal took effect or nothing stood there that the content lacks. |
| `Lifecycle.RestoredContent` | pkg/driver/controller.go:140-144 | The volume a creation returns shows exactly the snapshot's content if and only if nothing stale is left at its place. |
| `NodeService.StageShowsContent` | pkg/driver/node.go:33-61 | Whatever the directory held before, successful staging shows the volume's content and only that; pins and MFS are unchanged; it succeeds when none of its calls fails and the content is available. |
| `NodeService.FetchShowsContent` | pkg/driver/node.go:354-389 | The same for the fetch itself, where a CID wins over a path, and with neither nothing is done. |
| `NodeService.UnstageImports` | pkg/driver/node.go:85-109 | Unstaging a read-write volume is importing its staging directory at its path if it is found, which a working list call ensures, and nothing otherwise. |
| `NodeService.UnstageKeepsExactly` | pkg/driver/node.go:85-109 | Whatever an unstage reports, the MFS tree it leaves: what the import got done, up to some point of the walk and all on success, in place of the old tree, over it where the removal took no effect, or not at all where the directory is not made; kept if and only if that is the old tree or part of it, or nothing was removed; after a removal the replies decide how far the walk got; without a staging directory, the same with nothing got done. |
| `NodeService.UnstageCanLoseAnyTree` | pkg/ipfs/client.go:484-490 | When the old tree is removed and the directory then not made, the unstage fails and nothing is left at the place, whatever was staged. |
| `NodeService.UnstageLands` | pkg/driver/node.go:100-109 | After a successful unstage whose removal takes effect, MFS shows the staged tree; it succeeds when none of its calls fails. |
| `NodeService.StageLeaves` | pkg/driver/node.go:51-60 | For every schedule, what staging a read-write volume leaves in its directory (the old content, part of it, nothing, part of the tree, or the tree), and that it succeeds if and only if its four calls do. |
| `NodeService.StageUnstageRoundTrip` | pkg/driver/node.go:33-117 | Stage, change nothing, unstage, whatever the stage reported: an unstage that clears and succeeds leaves MFS as it was if and only if the stage had left the volume's tree in the directory, which a successful stage always has; pins are unchanged. |
| `NodeService.UnstageStageRoundTrip` | pkg/driver/node.go:33-117 | Unstage, then stage anywhere: the staged tree is the one that was unstaged. |
| `NodeService.FailedUnstageRecovers` | pkg/driver/node.go:100-116 | After an unstage with an import error, from whatever it left, a repetition none of whose calls fails succeeds and MFS shows the staging tree. |
| `NodeService.UnstageAfterFailedStageErases` | pkg/driver/node.go:375-384 | The failing family of the round trip: a stage that fails after clearing, before anything is downloaded, leaves an empty directory, and a successful unstage then replaces the volume by an empty tree. |
| `NodeService.UnstageWithoutStagingErases` | pkg/ipfs/client.go:484-496 | Unstaging without a staging directory fails, but only after the volume's tree was replaced by an empty one. |
| `Ipfs.ImportResult` | pkg/ipfs/client.go:477-577 | For every tree, target and schedule: nothing outside the target changes but missing ancestors, MFS stays a tree even when the walk stops early, success lays the local tree exactly over what the removal left, and it succeeds when none of its calls fails and no file is in the way. |
| `Ipfs.ImportLeaves` | pkg/ipfs/client.go:477-577 | Every import, failing ones and missing directories included, leaves what the removal left, or over it the local tree up to some point of the walk, depending on whether the directory is made; all of it on success; and after a removal the replies alone decide up to which point. |
| `Ipfs.CopyWalkResult` | pkg/ipfs/client.go:503-564 | The walk over any prefix of the visiting order adds exactly the visited part, stays below the target, never meets a missing parent, and when nothing is in the way stops only for a call of its own that failed. |
| `Ipfs.CopyWalkLeaves` | pkg/ipfs/client.go:503-564 | Wherever the walk stops, exactly the paths visited up to some point have been copied, all of them on success. |
| `Ipfs.WalkReplays` | pkg/ipfs/client.go:503-564 | With nothing in its way, the walk ends when, how and where the replies of its mkdir, add and copy calls decide, computed without MFS. |
| `Ipfs.CopyNodeResult` | pkg/ipfs/client.go:514-562 | Visiting one path puts exactly that node in its place or changes nothing, and success means it is there. |
| `Ipfs.MirrorExactly` | pkg/ipfs/client.go:483-490 | A successful import equals the local tree if and only if the removal took effect or nothing stood at the target that the local tree lacks. |
| `Ipfs.ImportMirrors` | pkg/ipfs/client.go:477-577 | If the removal takes effect, a successful import makes the subtree equal to the local tree. |
| `Ipfs.StaleEntriesSurvive` | pkg/ipfs/client.go:483-486 | When only the removal fails, importing an empty directory succeeds and changes nothing. |
| `Ipfs.FailedImportRecovers` | pkg/ipfs/client.go:484-564 | From whatever state an import left, the next one whose removal takes effect ends, if it succeeds, with MFS equal to the local tree, and it succeeds when none of its calls fails. |
| `Ipfs.MkdirResult` | pkg/ipfs/client.go:341-363 | Making a directory adds the missing ancestors and nothing else, and keeps MFS a tree. |
| `Ipfs.RemovalLeaves` | pkg/ipfs/client.go:365-387 | A removal, tried on a path that may not exist, keeps MFS a tree and everything outside the path. |
| `Ipfs.DownloadResult` | pkg/ipfs/client.go:189-245 | A download into an empty directory succeeds if and only if the content is reachable and the call works; then it arrives complete, else at most a part of it does; pins and MFS are left alone. |
| `Ipfs.ExportResult` | pkg/ipfs/client.go:445-475 | An export by way of the path's CID shows exactly the tree at that path. |
| `Ipfs.Client.ImportToMFS` | pkg/ipfs/client.go:477-577 | The imperative import refines the specification the import lemmas are about. |
| `Ipfs.Client.CopyTree` | pkg/ipfs/client.go:503-564 | The loop over the local tree, smallest path first, is the walk of the specification. |
| `Ipfs.Client.ExportMFS` | pkg/ipfs/client.go:445-475 | Resolve, then download; an unresolved path leaves the directory as it was. |
| `Ipfs.Client.GetCIDContent` | pkg/ipfs/client.go:189-214 | Fetch and write, refining the specification of `Ipfs.DownloadResult`; a write that breaks off leaves a part. |
| `Ipfs.Client.StatCID` | pkg/ipfs/client.go:161-187 | Found means local or served by a peer at that moment, not found means neither, and both differ from a failing call; nothing changes. |
| `Ipfs.Client.PinCID` | pkg/ipfs/client.go:309-323 | Success means pinned and held; at most this one pin is added, even by a failing call; MFS is unchanged. |
| `Ipfs.Client.UnpinCID` | pkg/ipfs/client.go:325-339 | Success means it was pinned and no longer is; no other pin, no content and nothing in MFS is touched. |
| `Ipfs.Client.MkdirMFS` | pkg/ipfs/client.go:341-363 | Success means the directory and all its ancestors are there; everything that stood in MFS still does, and nothing else appears. |
| `Ipfs.Client.RmMFS` | pkg/ipfs/client.go:365-387 | Success means something stood at the path and nothing is left at or below it; everything elsewhere is kept. |
| `Ipfs.Client.ResolveMFSCID` | pkg/ipfs/client.go:579-593 | A returned CID stands for exactly the tree at the path and can be served locally; nothing changes. |
| `Addressing.LawfulExists` | pkg/ipfs/client.go:543-549 | Content addressing as assumed exists for every schedule: an injective spelling of trees with its inverse. |
| `Trees.WriteNodeToDir` | pkg/ipfs/client.go:219-245 | The loop over a downloaded directory's children, or the single `data` entry, is the specification's write. |
| `Trees.WriteIntoEmpty` | pkg/ipfs/client.go:219-245 | Written into an empty directory, a node arrives complete: a directory as itself, a file as `data`. |
| `Trees.WriteNodeMeans` | pkg/ipfs/client.go:219-245 | Into any directory: succeeds if and only if nothing of that name is there yet, and then adds the children, or a file as `data`, to what is there. |
| `Trees.EnsureEmptyDirectory` | pkg/driver/node.go:391-409 | Removing every entry with all it holds leaves the bare directory. |
| `Trees.WalkIsParentFirst` | pkg/ipfs/client.go:503-526 | The lexical walk reaches every directory before anything inside it. |
| `Trees.OverlaySame` | pkg/ipfs/client.go:484-564 | Taking the tree at a path out and laying it back changes nothing. |
| `Trees.OverlayKeeps` | pkg/ipfs/client.go:484-564 | Laying a tree where the old one was removed changes nothing if and only if it is the old one. |
| `Trees.OverlayOverKeeps` | pkg/ipfs/client.go:488-564 | Laying a tree over the old one changes nothing if and only if all of it stood there already. |
| `Trees.SubtreeOfOverlay` | pkg/ipfs/client.go:488-564 | What is seen at a path after laying a tree there: the tree, over whatever was left. |
| `Paths.AcceptedExactly` | pkg/driver/utils.go:193-209 | For every path and every root: accepted if and only if the root's cleaned components are a prefix of the path's; the roots `/` and `.` accept one text each. |
| `Paths.CleaningRules` | pkg/driver/utils.go:199 | The rules of cleaning on text, whatever stands around: a name and a following `..` go away together, `.` and empty elements go away, `..` at the root goes nowhere; with the spelling of plain names they determine every location. |
| `Paths.RelativeCleaningRules` | pkg/driver/utils.go:199 | The same for a relative path, where `..` at the start stays. |
| `Paths.NormalizationConfines` | pkg/driver/utils.go:193-209 | An accepted result is absolute, spelled from plain names, under the root, denotes the place the raw path denotes from `/`, and normalizes to itself. |
| `Paths.RefusedExactly` | pkg/driver/utils.go:204-206 | Refused if and only if the place is outside the root or the path is relative and climbs above its start. |
| `Paths.RootedSamePlace` | pkg/driver/utils.go:199-202 | Making a path rooted does not change the place it denotes. |
| `Paths.EscapeRefused` | pkg/driver/utils.go:204-206 | A path that leaves an absolute root by `..` is accepted if and only if what follows leads back under it from the parent of the root. |
| `Paths.PrefixTest` | pkg/driver/utils.go:204 | The textual test with `root + "/"` is the test for a proper prefix of components. |
| `Paths.AutoPath` | pkg/driver/controller.go:126 | The default path is always accepted, one component below the root. |
| `Paths.Sanitize` | pkg/driver/utils.go:183-190 | Only lower-case letters, digits and hyphens, at most 128, each the sanitized character at that position of the name. |
| `Paths.SanitizeStable` | pkg/driver/utils.go:183-190 | A second pass changes nothing, and the result is a single path component. |
| `Paths.NamesCollideExactly` | pkg/driver/utils.go:183-190 | Two names share an identifier if and only if they keep the same number of characters and these become the same one by one. |
| `Paths.SafeNamesNeverCollide` | pkg/driver/utils.go:183-190 | Names of at most 128 lower-case letters, digits and hyphens share an identifier only if they are equal. |
| `Paths.SanitizeCollides` | pkg/driver/utils.go:185 | An instance of such a collision. |
| `Locks.VolumeLocks.constructor` | pkg/driver/lock/volumelocks.go:28-32 | The table starts empty. |
| `Locks.VolumeLocks.TryAcquire` | pkg/driver/lock/volumelocks.go:37-45 | Succeeds if and only if the key was free; then the key is held. |
| `Locks.VolumeLocks.Release` | pkg/driver/lock/volumelocks.go:48-52 | Frees exactly that key, held or not. |
| `Locks.KeysSeparateSubjects` | pkg/driver/controller.go:476-480 | Among calls on issued volumes, two lock keys are equal if and only if the calls are about the same thing. |
| `Locks.ForeignIdCollides` | pkg/driver/controller.go:247-251 | A deletion shares its lock key with some snapshot call if and only if its identifier begins like one of the two kinds of snapshot keys. |
| `Locks.LocksTrackCalls` | pkg/driver/lock/volumelocks.go:37-52 | After any interleaving of any number of calls the table holds exactly the keys of calls in flight, each with one holder. |
| `Locks.StepDisciplined` | pkg/driver/controller.go:71-75 | Starting, being turned away and finishing each keep that. |
| `Locks.Perform` | pkg/driver/lock/volumelocks.go:37-52 | Each start and finish, made on the real table with try-acquire and release, is the modelled event. |
| `Locks.PerformAll` | pkg/driver/lock/volumelocks.go:37-52 | After any sequence of events the real table holds exactly what the modelled interleaving holds. |
| `Locks.NoLockOutlivesCalls` | pkg/driver/controller.go:540-544 | When no call is in flight, no key is locked. |
| `Locks.WorkIsExclusive` | pkg/driver/controller.go:60-75 | Two creations in flight never work on the same automatic path, and one volume is never created and deleted at once. |
| `DriverService.Driver.CreateVolume` | pkg/driver/controller.go:39-75 | A busy volume is refused untouched; otherwise the result is the specified one; the lock table is as before on every path. |
| `DriverService.Driver.CreateLocked` | pkg/driver/controller.go:77-174 | The three kinds, the restore and the context built step by step, as specified. |
| `DriverService.Driver.RestoreSnapshotToMFS` | pkg/driver/controller.go:193-233 | Stat, temporary directory, download and import, as specified, with the error of the first that fails. |
| `DriverService.Driver.DeleteVolume` | pkg/driver/controller.go:239-267 | Under the lock: not found is success, other lookup errors are reported, otherwise cleanup. |
| `DriverService.Driver.DeleteLocked` | pkg/driver/controller.go:253-266 | The work of a deletion, done while its key is held, as specified. |
| `DriverService.Driver.CleanupVolumeInIPFS` | pkg/driver/utils.go:109-136 | Count, unpin, remove, as specified; failures do not stop it. |
| `DriverService.Driver.CidReferenceUsage` | pkg/driver/utils.go:138-178 | The loops over both listings compute the specified counts, with the unavailable snapshot store as an error only when a snapshot is to be excluded. |
| `DriverService.Driver.CreateSnapshot` | pkg/driver/controller.go:457-480 | A busy snapshot is refused untouched; the lock is free afterwards on every path. |
| `DriverService.Driver.SnapshotLocked` | pkg/driver/controller.go:482-524 | Lookup, resolve, pin, as specified; a failing pin does not stop it. |
| `DriverService.Driver.DeleteSnapshot` | pkg/driver/controller.go:530-572 | Count under the lock, unpin only if nothing else refers to the CID, as specified. |
| `DriverService.Driver.DropLocked` | pkg/driver/controller.go:546-571 | The work of a snapshot deletion, done while its key is held, as specified. |
| `DriverService.Driver.FetchContentToPath` | pkg/driver/node.go:354-389 | Clear, then download or export, as specified; a clearing that breaks off leaves a part of the old content. |
| `DriverService.Driver.NodeStageVolume` | pkg/driver/node.go:33-61 | Invalid requests change nothing; otherwise staging as specified. |
| `DriverService.Driver.NodeUnstageVolume` | pkg/driver/node.go:67-117 | Invalid requests change nothing; otherwise unstaging as specified, skipping the import when the volume cannot be looked up. |
| `Controller.CountsAreCardinalities` | pkg/driver/utils.go:138-178 | The counts are the number of listed volumes of this driver, called otherwise, that record the CID and do not say `false` for pinning, and of its listed snapshots that stand for the CID by their status or else by their spec, less one when excluding and not zero. |
| `Controller.CountsAreConservative` | pkg/driver/utils.go:138-178 | Counts from a view with at least the same objects, in any order, are never smaller. |
| `Controller.VolumesCounted` | pkg/driver/utils.go:149-158 | Counting in the converted listing is counting in the volumes themselves. |
| `Controller.RequestedCapacity` | pkg/driver/utils.go:40-52 | The recorded capacity is always positive: the required bytes, else the limit, else the default. |
| `VolumeStore.GetVolumeAttributes` | pkg/driver/store/persistent_volume.go:63-81 | The attempt by name and then the loop compute the specified lookup. |
| `VolumeStore.LookupRefinesScan` | pkg/driver/store/persistent_volume.go:63-81 | The two-phase lookup gives the answer of a plain scan of every reordering of the listing if and only if all listed volumes with the handle convert to the same attributes; unique handles are enough. |
| `VolumeStore.LookupIgnoresOrder` | pkg/driver/store/persistent_volume.go:63-81 | Then the lookup itself does not depend on the order of the listing either. |
| `VolumeStore.LookupFinds` | pkg/driver/store/persistent_volume.go:63-78 | The volume that has the handle is the answer, with its capacity and attributes, however it is found; a failing list call can only turn it into an internal error. |
| `VolumeStore.LookupMisses` | pkg/driver/store/persistent_volume.go:80 | Not-found is reported if and only if no listed volume has the handle. |
| `VolumeStore.LookupWithoutList` | pkg/driver/store/persistent_volume.go:64-72 | Without a working list call a volume is found if and only if it carries its handle as its name; else the error is internal. |
| `VolumeStore.SharedHandleDiverges` | pkg/driver/store/persistent_volume.go:64-67 | Any two volumes that share a handle each win the scan of some reordering of the same listing. |
| `VolumeStore.PvToAttributes` | pkg/driver/store/persistent_volume.go:106-131 | The loop copies the whole attribute map; the object name stands in for an empty handle. |
| `VolumeStore.ListVolumes` | pkg/driver/store/persistent_volume.go:83-104 | The loop collects the driver's volumes in listing order. |
| `VolumeStore.VolumesAreOwned` | pkg/driver/store/persistent_volume.go:90-131 | The listing has an entry for every volume of the driver and no other, with its handle or else its name, its capacity or zero, and its attributes. |
| `SnapshotStore.ListSnapshots` | pkg/driver/store/volume_snapshot_content.go:64-83 | The filtering loop collects the matching snapshots in listing order. |
| `SnapshotStore.SnapshotsAreTheMatches` | pkg/driver/store/volume_snapshot_content.go:85-136 | The listing has an entry for every object of the driver that passes the filters and no other, with the fields of the object: the status handle or else the spec handle, source, readiness, whole seconds and size. |
| `SnapshotStore.HandleMeans` | pkg/driver/store/volume_snapshot_content.go:97-104 | The effective handle is the one in the status if there is one and it is not empty, else the one in the spec. |
| `SnapshotStore.SnapshotsCounted` | pkg/driver/store/volume_snapshot_content.go:64-112 | The length of a listing filtered by CID is the number of the driver's objects that stand for it, by their status or else by their spec. |
| `Listing.PagesAreComplete` | pkg/driver/controller.go:341-402 | If volumes with the same identifier are the same, following the tokens with any positive page sizes, each call seeing the volumes in any order, ends and returns the whole sorted list. |
| `Listing.PagesAddUpExactly` | pkg/driver/controller.go:341-402 | For every listing: the pages add up to it, whatever the page sizes and however each call sorts, if and only if volumes with the same identifier are the same. |
| `Listing.ListVolumesPage` | pkg/driver/controller.go:341-402 | The page is cut from a sorted permutation of the driver's volumes; without a token and a positive limit it is all of them and no token; only a token that stands for no place in the list is refused; a failing list call is an internal error. |
| `Listing.SortById` | pkg/driver/controller.go:363-367 | The result is sorted by identifier and a permutation of the input. |
| `Orders.StringOrderMeans` | pkg/driver/controller.go:365 | The order of identifiers: a prefix comes first, otherwise the first different character decides. |
| `Listing.OneSortedOrder` | pkg/driver/controller.go:363-367 | If volumes with the same identifier are the same there is only one such result. |
| `Listing.PageAt` | pkg/driver/controller.go:369-390 | The page a token made by the driver asks for, and the next token. |
| `Listing.PageMeans` | pkg/driver/controller.go:369-391 | Every page, for every token and limit: from the place the token stands for, at most the limit if it is positive and else all the rest, with a next token exactly if more is left; and every refusal. |
| `Listing.TokenRoundTrip` | pkg/driver/controller.go:371-389 | A token reads back as the number it was made from. |
| `Listing.AtoiMeans` | pkg/driver/controller.go:371 | A text is read as a number if and only if it is a way to write it: its decimal digits behind zeros and perhaps a sign. |
| `Listing.TwinsCanHide` | pkg/driver/controller.go:363-367 | Any listing with different volumes under one identifier has page sizes and sorted views that lose one of them. |
| `Statistics.MultiplyIsExact` | pkg/driver/utils.go:249-266 | For all 64-bit inputs the product is the mathematical one, clamped to the largest signed number; nothing wraps around. |
| `Statistics.StatsAreExact` | pkg/driver/utils.go:222-247 | Each of the six figures, for all counters: the product or count itself, or the largest signed number if that is less; used is the difference, or nothing. |
| `Statistics.StatsAreConsistent` | pkg/driver/utils.go:222-240 | Used never exceeds total; for consistent counters used plus available bytes stay within total if and only if the sum is representable or one part is nothing, and used plus free inodes equal their total if and only if it is representable or one part is nothing. |
| `Statistics.RepresentableTotalSuffices` | pkg/driver/utils.go:232-235 | A representable total is enough for that. |
| `Statistics.ClampedTotalBreaksSum` | pkg/driver/utils.go:261-263 | A concrete file system whose clamped total is below used plus available. |
| `MountOptions.BuildMountOptions` | pkg/driver/node.go:199-226 | The result begins with `bind`, then `ro` if read-only, has no duplicates, holds exactly those and all non-empty flags, and keeps the others in the order of first occurrence. |

## Left out

- Kubo's HTTP requests, JSON decoding, multiaddr and CID parsing; each call is a state change with a failure outcome.
- Bind mounts, mount-point checks, statfs itself and temporary directories; the mount helper may or may not remove the staging directory after an unstage.
- Symbolic links, file modes, timestamps and unsupported node types; trees have directories and files only.
- Runs with another RPC between check and unpin, or with informer caches that lag: the code has no lock per CID, see `ExactPins.InterleavedCheckLosesPin`.
- Runs of volumes that lie inside each other: the code accepts such paths; what one call does to the other volume is exact (`Isolation.DeleteSparesExactly`, `Isolation.UnstageSparesExactly`), but no result over runs is stated for their trees.
- CreateSnapshot as an idempotent call by name: a repetition after a write resolves another CID (pkg/driver/controller.go:499).
- That every read-only volume refuses snapshots: only an empty mfspath is refused, which a request with both parameters passes (pkg/driver/controller.go:491-497).
- Listing.SortById: sorts by insertion on values where the code calls sort.Slice; stated for any sorted permutation, as sort.Slice is not stable.
- Trees.EnsureEmptyDirectory: works on tree values, as does Trees.WriteNodeToDir; open files and concurrent changes to a local directory are not captured.
- Paths.Sanitize: names are sequences of Unicode code points; invalid UTF-8 is not modelled.
- ListSnapshots paging, which truncates without a next token (pkg/driver/controller.go:590-597), and the creation time of snapshots.
- GetCapacity, expand, ValidateVolumeCapabilities, ControllerGetVolume, the other node RPCs, identity RPCs and capability lists: single-branch code that would only add easy members.
- Flags and wiring, informers, Kubernetes clients, logging, gRPC middleware, charts and scripts.
