/**
 The pin protocol over whole runs: no deletion unpins what something else still needs,
 nothing pinned is lost early, nothing stays pinned for nobody, and snapshots last.
 */
module Pins {
  import opened Results
  import opened Counting
  import opened Paths
  import opened Trees
  import opened Ipfs
  import opened VolumeStore
  import opened SnapshotStore
  import opened Controller
  import opened NodeService
  import opened Lifecycle
  import opened World
  import opened Soundness

  // ------------------------------------------------------------ references

  /** A volume of this driver that keeps `cid` pinned: it records the CID, and does not say `false` for pinning. */
  predicate Keeps(cfg: Config, pv: PersistentVolume, cid: string) {
    && OwnedBy(pv, cfg.driver) && cid != ""
    && "cid" in pv.csi.value.attributes && pv.csi.value.attributes["cid"] == cid
    && ("pinning" in pv.csi.value.attributes ==> pv.csi.value.attributes["pinning"] != "false")
  }

  ghost predicate VolumeHolds(cfg: Config, w: World, cid: string) { exists pv :: pv in w.pvs && Keeps(cfg, pv, cid) }

  ghost predicate SnapshotHolds(cfg: Config, w: World, cid: string) {
    exists v :: v in w.vscs && HoldsCid(v, cfg.driver, cid)
  }

  /** A live object of this driver refers to `cid`. */
  ghost predicate Referenced(cfg: Config, w: World, cid: string) {
    VolumeHolds(cfg, w, cid) || SnapshotHolds(cfg, w, cid)
  }

  /** The volume count is positive exactly if a volume other than the excluded one keeps the CID. */
  lemma {:induction false} VolumeRefsMeaning(cfg: Config, pvs: seq<PersistentVolume>, cid: string, id: string)
    requires cid != "" && forall pv :: pv in pvs && OwnedBy(pv, cfg.driver) ==> !HasHandle(pv, "")
    ensures
      VolumeRefs(pvs, cfg.driver, cid, id) > 0 <==>
        exists pv :: pv in pvs && Keeps(cfg, pv, cid) && !HasHandle(pv, id)
  {
    hide CountIf;
    CountPositive(pv => IsVolumeRef(pv, cfg.driver, cid, id), pvs);
    if pv :| pv in pvs && Keeps(cfg, pv, cid) && !HasHandle(pv, id) {
      var i :| 0 <= i < |pvs| && pvs[i] == pv;
      assert IsVolumeRef(pvs[i], cfg.driver, cid, id);
    }
    if i :| 0 <= i < |pvs| && IsVolumeRef(pvs[i], cfg.driver, cid, id) {
      assert pvs[i] in pvs && Keeps(cfg, pvs[i], cid) && !HasHandle(pvs[i], id);
    }
  }

  lemma {:induction false} SnapshotRefsMeaning(vscs: seq<SnapshotContent>, driver: string, cid: string)
    ensures SnapshotRefs(vscs, driver, cid, false) > 0 <==> exists v :: v in vscs && HoldsCid(v, driver, cid)
    ensures
      SnapshotRefs(vscs, driver, cid, false) > 0 <==> exists v :: v in vscs && v.driver == driver && StandsFor(v, cid)
  {
    hide CountIf, HoldsCid, StandsFor, Handle;
    forall v: SnapshotContent ensures HoldsCid(v, driver, cid) <==> v.driver == driver && StandsFor(v, cid) {
      HoldsMeans(v, driver, cid);
    }
    CountPositive(v => HoldsCid(v, driver, cid), vscs);
    if v :| v in vscs && HoldsCid(v, driver, cid) {
      var i :| 0 <= i < |vscs| && vscs[i] == v;
      assert HoldsCid(vscs[i], driver, cid);
    }
    if i :| 0 <= i < |vscs| && HoldsCid(vscs[i], driver, cid) {
      assert vscs[i] in vscs;
    }
  }

  /** With the deleted snapshot still listed, the reduced count is positive exactly if another one remains. */
  lemma {:induction false} OtherSnapshotsMeaning(vscs: seq<SnapshotContent>, driver: string, cid: string,
                                                 v: SnapshotContent)
    requires DistinctNames(vscs) && v in vscs && HoldsCid(v, driver, cid)
    ensures
      SnapshotRefs(vscs, driver, cid, true) > 0 <==>
        exists u :: u in vscs && HoldsCid(u, driver, cid) && u.name != v.name
  {
    hide HoldsCid;
    var p := (u: SnapshotContent) => HoldsCid(u, driver, cid);
    var i :| 0 <= i < |vscs| && vscs[i] == v;
    if u :| u in vscs && HoldsCid(u, driver, cid) && u.name != v.name {
      var j :| 0 <= j < |vscs| && vscs[j] == u;
      CountTwo(p, vscs, if i < j then i else j, if i < j then j else i);
    }
    if CountIf(p, vscs) > 1 {
      TwoHits(p, vscs, i);
    }
  }

  /** A count above one has a hit besides any given place. */
  lemma {:induction false} TwoHits(p: SnapshotContent -> bool, s: seq<SnapshotContent>, i: nat)
    requires i < |s| && CountIf(p, s) > 1
    ensures exists j :: 0 <= j < |s| && j != i && p(s[j])
  {
    var n := |s| - 1;
    CountPositive(p, s[..n]);
    if i == n {
      var j :| 0 <= j < n && p(s[..n][j]);
      assert p(s[j]);
    } else if p(s[n]) {
    } else {
      TwoHits(p, s[..n], i);
      var j :| 0 <= j < n && j != i && p(s[..n][j]);
      assert p(s[j]);
    }
  }

  // ------------------------------------------------------------ unpinning is safe

  /**
   All that counting needs: unique handles, not empty for this driver's own volumes, distinct
   object names, and no snapshots where the snapshot API is not installed.
   */
  ghost predicate Orderly(cfg: Config, w: World) {
    && SoundVolumes(cfg, w.pvs) && DistinctNames(w.vscs)
    && (forall v :: v in w.vscs && v.driver == cfg.driver ==> cfg.snapshots)
  }

  lemma {:induction false} SoundIsOrderly(cfg: Config, env: Env, w: World)
    requires Sound(cfg, env, w)
    ensures Orderly(cfg, w)
  {
    hide Handle;
    assert forall v :: v in w.vscs && v.driver == cfg.driver ==> SoundSnapshot(cfg, env, v, w.taken);
  }

  lemma {:induction false} DeleteUnpins(cfg: Config, env: Env, w: World, id: string, cid: string)
    requires Orderly(cfg, w)
    requires cid in w.ipfs.pins && cid !in DoDelete(cfg, env, w, id).ipfs.pins
    ensures !Referenced(cfg, DoDelete(cfg, env, w, id), cid)
  {
    hide DeleteVolume, Cleanup, VolumeRefs, SnapshotRefs;
    if !Ours(cfg, w.pvs, id) {
      NotListedEffects(cfg, env, w, id);
    }
    DeleteEffects(cfg, env, w, id);
    var a := ToAttributes(Owned(cfg, w.pvs, id));
    CleanupPins(cfg, env, Tick(w.ipfs), w.pvs, w.vscs, a);
    VolumeRefsMeaning(cfg, w.pvs, cid, id);
    SnapshotRefsMeaning(w.vscs, cfg.driver, cid);
  }

  lemma {:induction false} DropUnpins(cfg: Config, env: Env, w: World, vscName: string, cid: string)
    requires Orderly(cfg, w)
    requires cid in w.ipfs.pins && cid !in DoDrop(cfg, env, w, vscName).ipfs.pins
    ensures !Referenced(cfg, DoDrop(cfg, env, w, vscName), cid)
  {
    hide DeleteSnapshot, VolumeRefs, SnapshotRefs, Handle;
    var v :| v in w.vscs && OursNamed(cfg, v, vscName)
             && DoDrop(cfg, env, w, vscName).ipfs == DeleteSnapshot(cfg, env, w.ipfs, w.pvs, w.vscs, Handle(v)).0;
    DropEffects(cfg, env, w, Handle(v));
    assert cid == Handle(v);
    OtherSnapshotsMeaning(w.vscs, cfg.driver, cid, v);
    if cid == "" {
      DropNothing(cfg, env, w);
    }
    VolumeRefsMeaning(cfg, w.pvs, cid, "");
  }

  lemma {:induction false} DropNothing(cfg: Config, env: Env, w: World)
    ensures DeleteSnapshot(cfg, env, w.ipfs, w.pvs, w.vscs, "") == (w.ipfs, Err(InvalidArgument))
  {
  }

  lemma {:induction false} HandleNotEmpty(cfg: Config, env: Env, w: World, v: SnapshotContent)
    requires Sound(cfg, env, w) && v in w.vscs && v.driver == cfg.driver
    ensures Handle(v) != "" && v.name in w.taken && env.content(Handle(v)) == w.taken[v.name].tree
  {
    assert SoundSnapshot(cfg, env, v, w.taken);
  }

  /** All other steps only add pins, in whatever state. */
  lemma {:induction false} OthersOnlyPin(cfg: Config, env: Env, w: World, step: Step)
    requires !step.Delete? && !step.Drop?
    ensures w.ipfs.pins <= Do(cfg, env, w, step).ipfs.pins
    ensures !step.Create? && !step.Take? ==> Do(cfg, env, w, step).ipfs.pins == w.ipfs.pins
  {
    hide CreateVolume, CreateSnapshot, Stage, Unstage, WouldImport, SourceTree, PlaceIn, ValidDir, Listed, Handle;
    match step {
      case Create(req, pvName) => CreatePins(cfg, env, w.ipfs, req);
      case Take(req, vscName) => SnapshotOnlyPins(env, w.ipfs, w.pvs, req);
      case StageAt(id, dir) =>
        if Ours(cfg, w.pvs, id) {
          StageKeepsPins(env, w.ipfs, Owned(cfg, w.pvs, id).csi.value.attributes, Found(w.stagings, dir));
        }
      case UnstageAt(id, dir, cleaned) => UnstageKeepsPins(env, w.ipfs, w.pvs, id, Found(w.stagings, dir));
      case Write(dir, tree) =>
      case CollectGarbage(keep) =>
      case VolumeAppears(pv) =>
      case SnapshotAppears(vsc) =>
    }
  }

  lemma {:induction false} SnapshotOnlyPins(env: Env, s: State, pvs: seq<PersistentVolume>, req: CreateSnapshotRequest)
    ensures s.pins <= CreateSnapshot(env, s, pvs, req).0.pins
  {
    hide Lookup, Location, Subtree;
  }

  lemma {:induction false} StageKeepsPins(env: Env, s: State, context: map<string, string>, staging: Option<Tree>)
    ensures Stage(env, s, context, staging).0.pins == s.pins
  {
    hide Location, Subtree, WriteNode, Torn, Held;
  }

  lemma {:induction false} UnstageKeepsPins(env: Env, s: State, pvs: seq<PersistentVolume>, id: string,
                                            staging: Option<Tree>)
    ensures Unstage(env, s, pvs, id, staging).0.pins == s.pins
  {
    hide Lookup, Import;
    var a := Lookup(pvs, env.reply(ListCall, s.clock).Success?, id);
    if a.Ok? {
      ImportKeepsPins(env, Tick(s), staging, Get(a.value.attributes, MFS_PATH));
    }
  }

  /**
   Whatever the policy, the schedule and the history: when a step takes a pin away, no
   object left afterwards refers to that CID. This covers CIDs shared by volumes, by a
   volume and a snapshot, and by two snapshots, whoever brought them in.
   */
  lemma {:induction false} UnpinNeverHurts(cfg: Config, env: Env, w: World, step: Step, cid: string)
    requires Orderly(cfg, w)
    requires cid in w.ipfs.pins && cid !in Do(cfg, env, w, step).ipfs.pins
    ensures !Referenced(cfg, Do(cfg, env, w, step), cid)
  {
    hide DoDelete, DoDrop, DoCreate, DoTake, DoStage, DoUnstage, DoVolumeAppears, DoSnapshotAppears, Orderly,
         Referenced;
    if step.Delete? {
      DeleteUnpins(cfg, env, w, step.id, cid);
    } else if step.Drop? {
      DropUnpins(cfg, env, w, step.vscName, cid);
    } else {
      OthersOnlyPin(cfg, env, w, step);
    }
  }

  // ------------------------------------------------------------ nothing is lost early

  /** Every listed volume with pinning on has its CID pinned, unless it was brought in without. */
  ghost predicate VolumesPinned(cfg: Config, w: World) {
    forall pv, cid :: pv in w.pvs && Keeps(cfg, pv, cid) && pv.csi.value.handle !in w.loose ==> cid in w.ipfs.pins
  }

  /** Every listed snapshot whose pin call took effect still has its CID pinned. */
  ghost predicate SnapshotsPinned(cfg: Config, w: World) {
    forall v :: v in w.vscs && v.driver == cfg.driver && v.name in w.taken && w.taken[v.name].pinned ==>
      Handle(v) in w.ipfs.pins
  }

  /** An owned volume present after a step was there before, or came with its CID pinned. */
  lemma {:induction false} NewVolumesArePinned(cfg: Config, env: Env, w: World, step: Step, pv: PersistentVolume,
                                               cid: string)
    requires !cfg.bestEffort
    requires
      var w' := Do(cfg, env, w, step);
      pv in w'.pvs && Keeps(cfg, pv, cid) && pv.csi.value.handle !in w'.loose
    ensures (pv in w.pvs && pv.csi.value.handle !in w.loose) || cid in Do(cfg, env, w, step).ipfs.pins
  {
    hide CreateVolume, DeleteVolume, CreateSnapshot, DeleteSnapshot, Stage, Unstage, WouldImport, SourceTree, PlaceIn,
         ValidDir, Lookup, UnstageClears;
    if step.Create? {
      CreatePins(cfg, env, w.ipfs, step.req);
      CreatedContext(cfg, env, w.ipfs, step.req);
    }
  }

  lemma {:induction false} VolumesStayPinned(cfg: Config, env: Env, w: World, step: Step)
    requires !cfg.bestEffort && Orderly(cfg, w) && VolumesPinned(cfg, w)
    ensures VolumesPinned(cfg, Do(cfg, env, w, step))
  {
    hide Do, Orderly;
    var w' := Do(cfg, env, w, step);
    forall pv, cid | pv in w'.pvs && Keeps(cfg, pv, cid) && pv.csi.value.handle !in w'.loose
      ensures cid in w'.ipfs.pins
    {
      NewVolumesArePinned(cfg, env, w, step, pv, cid);
      if cid !in w'.ipfs.pins {
        UnpinNeverHurts(cfg, env, w, step, cid);
      }
    }
  }

  lemma {:induction false} NewSnapshotsArePinned(cfg: Config, env: Env, w: World, step: Step, v: SnapshotContent)
    requires
      var w' := Do(cfg, env, w, step);
      v in w'.vscs && v.driver == cfg.driver && v.name in w'.taken && w'.taken[v.name].pinned
    ensures
      || (v in w.vscs && v.name in w.taken && w.taken[v.name].pinned)
      || Handle(v) in Do(cfg, env, w, step).ipfs.pins
  {
    hide CreateVolume, DeleteVolume, CreateSnapshot, DeleteSnapshot, Stage, Unstage, WouldImport, SourceTree, PlaceIn,
         ValidDir, Lookup, UnstageClears;
  }

  lemma {:induction false} SnapshotsStayPinned(cfg: Config, env: Env, w: World, step: Step)
    requires Orderly(cfg, w) && SnapshotsPinned(cfg, w)
    ensures SnapshotsPinned(cfg, Do(cfg, env, w, step))
  {
    hide Do, Orderly;
    var w' := Do(cfg, env, w, step);
    forall v | v in w'.vscs && v.driver == cfg.driver && v.name in w'.taken && w'.taken[v.name].pinned
      ensures Handle(v) in w'.ipfs.pins
    {
      NewSnapshotsArePinned(cfg, env, w, step, v);
      assert HoldsCid(v, cfg.driver, Handle(v));
      if Handle(v) !in w'.ipfs.pins {
        UnpinNeverHurts(cfg, env, w, step, Handle(v));
      }
    }
  }

  /**
   Pin safety over every run: every listed snapshot whose CID was pinned when it was taken
   or brought in has it pinned; and under the strict policy so has every listed volume that
   wants its CID pinned, except those brought in while it was not.
   */
  lemma {:induction false} PinSafety(cfg: Config, env: Env, w: World, steps: seq<Step>)
    requires Lawful(env) && Initial(cfg, w)
    ensures SnapshotsPinned(cfg, Run(cfg, env, w, steps))
    ensures !cfg.bestEffort ==> VolumesPinned(cfg, Run(cfg, env, w, steps))
  {
    hide Do, SnapshotsPinned, VolumesPinned, Sound, Orderly;
    if steps == [] {
      NothingYet(cfg, w);
    } else {
      var before, step := steps[..|steps| - 1], steps[|steps| - 1];
      PinSafety(cfg, env, w, before);
      RunSound(cfg, env, w, before);
      SoundIsOrderly(cfg, env, Run(cfg, env, w, before));
      SnapshotsStayPinned(cfg, env, Run(cfg, env, w, before), step);
      if !cfg.bestEffort {
        VolumesStayPinned(cfg, env, Run(cfg, env, w, before), step);
      }
    }
  }

  lemma {:induction false} NothingYet(cfg: Config, w: World)
    requires Initial(cfg, w)
    ensures SnapshotsPinned(cfg, w) && VolumesPinned(cfg, w)
    ensures forall cid :: !Referenced(cfg, w, cid)
  {
  }

  // ------------------------------------------------------------ snapshots last

  /** A listed snapshot of this driver whose CID was pinned when it was taken. */
  ghost predicate PinnedSnapshot(cfg: Config, w: World, v: SnapshotContent) {
    v in w.vscs && v.driver == cfg.driver && v.name in w.taken && w.taken[v.name].pinned
  }

  /**
   After any run, a listed snapshot whose pin took effect can be served from the local
   repository, and what it stands for is the source volume's tree at the moment it was
   taken, whatever has happened to that volume since.
   */
  lemma {:induction false} SnapshotEndures(cfg: Config, env: Env, w: World, steps: seq<Step>, v: SnapshotContent)
    requires Lawful(env) && Initial(cfg, w) && PinnedSnapshot(cfg, Run(cfg, env, w, steps), v)
    ensures
      var now := Run(cfg, env, w, steps);
      && Held(env, now.ipfs, Handle(v)) && Handle(v) in now.ipfs.blocks && Handle(v) != ""
      && env.content(Handle(v)) == now.taken[v.name].tree
  {
    hide Run, Handle, Lawful, Initial;
    RunSound(cfg, env, w, steps);
    PinSafety(cfg, env, w, steps);
    HandleNotEmpty(cfg, env, Run(cfg, env, w, steps), v);
  }

  /**
   Restoring such a snapshot shows exactly that tree, exactly if nothing stale is left at the
   target; and the restore succeeds when none of its calls fails and the target directory can
   be made.
   */
  lemma {:induction false} RestoreReproduces(cfg: Config, env: Env, w: World, steps: seq<Step>, v: SnapshotContent,
                                             req: CreateVolumeRequest)
    requires Lawful(env) && Initial(cfg, w) && PinnedSnapshot(cfg, Run(cfg, env, w, steps), v)
    requires req.source == Some(FromSnapshot(Handle(v))) && req.name != "" && Get(req.parameters, CID) == ""
    requires RequestedPath(cfg, req).Ok?
    ensures
      var now := Run(cfg, env, w, steps);
      var (p, t) := (Place(cfg, req), Materialized(now.taken[v.name].tree));
      var (s', r) := CreateVolume(cfg, env, now.ipfs, req);
      && (r.Ok? ==> (Subtree(s'.mfs, p) == t <==> NothingStale(env, now.ipfs, p, t)))
      && (NoFailure(env, now.ipfs.clock, s'.clock) && p != [] && CanMkdir(now.ipfs.mfs, p) ==> r.Ok?)
  {
    hide Run, Handle, CreateVolume, RequestedPath, Location, Subtree, Materialized, NothingStale, Lawful, Initial,
         CanMkdir, NoFailure, Held, CreateClears;
    var now := Run(cfg, env, w, steps);
    SnapshotEndures(cfg, env, w, steps, v);
    RunSound(cfg, env, w, steps);
    if CreateVolume(cfg, env, now.ipfs, req).1.Ok? {
      RestoredContent(cfg, env, now.ipfs, req, Handle(v));
    }
    if Place(cfg, req) != [] && CanMkdir(now.ipfs.mfs, Place(cfg, req)) {
      RestoreSucceeds(cfg, env, now.ipfs, req, Handle(v));
    }
  }

  lemma {:induction false} RestoreSucceeds(cfg: Config, env: Env, s: State, req: CreateVolumeRequest, snapshot: string)
    requires Lawful(env) && ValidDir(s.mfs) && Held(env, s, snapshot) && snapshot in s.blocks
    requires req.source == Some(FromSnapshot(snapshot)) && snapshot != "" && req.name != ""
    requires Get(req.parameters, CID) == "" && RequestedPath(cfg, req).Ok?
    requires Place(cfg, req) != [] && CanMkdir(s.mfs, Place(cfg, req))
    ensures
      var (s', r) := CreateVolume(cfg, env, s, req);
      NoFailure(env, s.clock, s'.clock) ==> r.Ok?
  {
    hide Restore, Location, Subtree, Materialized, CanMkdir, Overlay, CreateVolume, RequestedPath;
    var path := RequestedPath(cfg, req).value;
    PathIsAbs(cfg, req);
    CreateStages(cfg, env, s, req);
    MkdirResult(env, s, Location(path));
    var (s1, _) := MkdirAt(env, s, Location(path));
    if IsDir(s1.mfs, Location(path)) {
      MakeableAgain(s1.mfs, Location(path));
      RestoreResult(env, s1, snapshot, path);
    }
  }
}
