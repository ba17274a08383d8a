/** Every step keeps the world sound, and every run does. */
module Soundness {
  import opened Results
  import opened Paths
  import opened Trees
  import opened Ipfs
  import opened VolumeStore
  import opened SnapshotStore
  import opened Controller
  import opened NodeService
  import opened Lifecycle
  import opened World

  /** What each call does to the parts of the IPFS state that soundness is about. */
  ghost predicate Healthy(s: State) { ValidDir(s.mfs) && s.pins <= s.blocks }

  lemma {:induction false} CreateKeepsHealthy(cfg: Config, env: Env, s: State, req: CreateVolumeRequest)
    requires Lawful(env) && Healthy(s)
    ensures Healthy(CreateVolume(cfg, env, s, req).0)
    ensures s.blocks <= CreateVolume(cfg, env, s, req).0.blocks
  {
    if Validate(req).Ok? {
      if Get(req.parameters, CID) == "" && RequestedPath(cfg, req).Ok? {
        hide *;
        CreateMfs(cfg, env, s, req);
        KeptIsHealthy(s, CreateVolume(cfg, env, s, req).0, Location(RequestedPath(cfg, req).value));
      } else {
        hide NormalizeMFSPath;
        CreateLeavesMfs(cfg, env, s, req);
      }
    }
  }

  lemma {:induction false} KeptIsHealthy(s: State, s': State, p: Path)
    requires Healthy(s) && Kept(s, s', p)
    ensures Healthy(s') && s'.pins == s.pins && s.blocks <= s'.blocks
  {
  }

  lemma {:induction false} RmKept(env: Env, s: State, path: string)
    requires ValidDir(s.mfs)
    ensures Kept(s, Rm(env, s, path).0, Location(path))
    ensures IsAbs(path) ==> Rm(env, s, path).0.mfs == Leftover(env, s, Location(path))
  {
    RemovalLeaves(env, s, Location(path));
  }

  /** The pin part of a cleanup: what was unpinned had no other reference left. */
  lemma {:induction false} CleanupPins(cfg: Config, env: Env, s: State, pvs: seq<PersistentVolume>,
                                       vscs: seq<SnapshotContent>, a: VolumeAttributes)
    ensures
      var s' := Cleanup(cfg, env, s, pvs, vscs, a);
      var cid := Get(a.attributes, CID);
      && s'.blocks == s.blocks && s.clock <= s'.clock
      && (s'.pins == s.pins ||
          (cid != "" && PinningEnabled(a.attributes) && cid in s.pins && s'.pins == s.pins - {cid}
           && VolumeRefs(pvs, cfg.driver, cid, a.volumeId) == 0
           && (cfg.snapshots ==> SnapshotRefs(vscs, cfg.driver, cid, false) == 0)))
  {
    hide VolumeRefs, SnapshotRefs, Rm, Get, PinningEnabled;
    RmTouchesMfsOnly(env);
  }

  lemma {:induction false} RmTouchesMfsOnly(env: Env)
    ensures
      forall s, path ::
        var s' := Rm(env, s, path).0;
        s'.pins == s.pins && s'.blocks == s.blocks && s'.clock == s.clock + 1
  {
    hide Location, Outside;
  }

  lemma {:induction false} CleanupMfs(cfg: Config, env: Env, s: State, pvs: seq<PersistentVolume>,
                                      vscs: seq<SnapshotContent>, a: VolumeAttributes)
    requires ValidDir(s.mfs)
    ensures
      var s' := Cleanup(cfg, env, s, pvs, vscs, a);
      match WriteTarget(a.attributes)
      case None => s'.mfs == s.mfs
      case Some(p) =>
        && KeptAround(s.mfs, s'.mfs, p)
        && (Get(a.attributes, CID) == "" && IsAbs(Get(a.attributes, MFS_PATH)) ==> s'.mfs == Leftover(env, s, p))
  {
    hide VolumeRefs, SnapshotRefs, KeptAround, Location, Rm, Leftover;
    forall s1: State | s1.mfs == s.mfs
      ensures KeptAround(s1.mfs, Rm(env, s1, Get(a.attributes, MFS_PATH)).0.mfs, Location(Get(a.attributes, MFS_PATH)))
    {
      RmKept(env, s1, Get(a.attributes, MFS_PATH));
    }
    RmKept(env, s, Get(a.attributes, MFS_PATH));
  }

  /** The attributes of an owned volume as every lookup reports them. */
  lemma {:induction false} OursFound(cfg: Config, pvs: seq<PersistentVolume>, listed: bool, id: string)
    requires SoundVolumes(cfg, pvs) && Ours(cfg, pvs, id)
    ensures
      var r := Lookup(pvs, listed, id);
      && (listed ==> r.Ok?)
      && (r.Ok? ==> r.value == ToAttributes(Owned(cfg, pvs, id)) && r.value.volumeId == id && id != "")
      && (r.Err? ==> r == Err(Internal))
  {
    LookupFinds(pvs, listed, id, Owned(cfg, pvs, id));
  }

  lemma {:induction false} DeleteEffects(cfg: Config, env: Env, w: World, id: string)
    requires SoundVolumes(cfg, w.pvs) && Ours(cfg, w.pvs, id)
    ensures
      var (s', r) := DeleteVolume(cfg, env, w.ipfs, w.pvs, w.vscs, id);
      var a := ToAttributes(Owned(cfg, w.pvs, id));
      || (r.Err? && s' == Tick(w.ipfs))
      || (r.Ok? && a.volumeId == id && s' == Cleanup(cfg, env, Tick(w.ipfs), w.pvs, w.vscs, a))
  {
    hide Cleanup, Lookup;
    OursFound(cfg, w.pvs, env.reply(ListCall, w.ipfs.clock).Success?, id);
  }

  /** Deleting a listed volume succeeds exactly if its lookup does. */
  lemma {:induction false} DeleteFinds(cfg: Config, env: Env, w: World, id: string)
    requires SoundVolumes(cfg, w.pvs) && Ours(cfg, w.pvs, id)
    ensures DeleteVolume(cfg, env, w.ipfs, w.pvs, w.vscs, id).1.Ok? <==> Finds(env, w.ipfs, w.pvs, id)
  {
    hide Lookup, Cleanup;
    OursFound(cfg, w.pvs, env.reply(ListCall, w.ipfs.clock).Success?, id);
  }

  /**
   A successful deletion of a read-write volume leaves nothing at its path and everything
   elsewhere, unless the removal, its second call, does not take effect: that is only logged.
   */
  lemma {:induction false} DeletedTreeIsGone(cfg: Config, env: Env, w: World, id: string)
    requires Sound(cfg, env, w) && Ours(cfg, w.pvs, id)
    requires
      var context := Owned(cfg, w.pvs, id).csi.value.attributes;
      Get(context, CID) == "" && WriteTarget(context).Some? && IsAbs(Get(context, MFS_PATH))
    requires DeleteVolume(cfg, env, w.ipfs, w.pvs, w.vscs, id).1.Ok?
    ensures
      var s' := DeleteVolume(cfg, env, w.ipfs, w.pvs, w.vscs, id).0;
      var p := PlaceIn(cfg, w, id);
      && s'.pins == w.ipfs.pins
      && if DeleteClears(env, w.ipfs, p)
         then Subtree(s'.mfs, p) == map[] && Outside(s'.mfs, p) == Outside(w.ipfs.mfs, p)
         else s'.mfs == w.ipfs.mfs
  {
    hide DeleteVolume, Cleanup, Location, KeptAround, SoundVolumes, SoundSnapshots, Leftover, Subtree, Outside,
         VolumeRefs, SnapshotRefs, ValidTree;
    var a := ToAttributes(Owned(cfg, w.pvs, id));
    DeleteEffects(cfg, env, w, id);
    CleanupPins(cfg, env, Tick(w.ipfs), w.pvs, w.vscs, a);
    CleanupMfs(cfg, env, Tick(w.ipfs), w.pvs, w.vscs, a);
    LeftoverIsBare(env, Tick(w.ipfs), PlaceIn(cfg, w, id));
  }

  /** The removal a deletion of a read-write volume makes, its second call, takes effect. */
  predicate DeleteClears(env: Env, s: State, p: Path) { Clears(env, s.clock + 1, p) }

  lemma {:induction false} LeftoverIsBare(env: Env, s: State, p: Path)
    ensures
      var fs := Leftover(env, s, p);
      if Clears(env, s.clock, p) then Subtree(fs, p) == map[] && Outside(fs, p) == Outside(s.mfs, p)
      else fs == s.mfs
  {
    NothingAt(s.mfs, p);
    assert Outside(Outside(s.mfs, p), p) == Outside(s.mfs, p);
  }

  /** Deleting a volume that is not listed succeeds, as soon as the list call does, and changes nothing. */
  lemma {:induction false} NotListedEffects(cfg: Config, env: Env, w: World, id: string)
    requires !Listed(w.pvs, id)
    ensures
      var (s', r) := DeleteVolume(cfg, env, w.ipfs, w.pvs, w.vscs, id);
      && s'.(clock := 0) == w.ipfs.(clock := 0)
      && (r.Ok? <==> id != "" && env.reply(ListCall, w.ipfs.clock).Success?)
  {
    hide Cleanup;
    ByNameIsListed(w.pvs, id);
  }

  // ------------------------------------------------------------ step by step

  lemma {:induction false} CreateSound(cfg: Config, env: Env, w: World, req: CreateVolumeRequest, pvName: string)
    requires Lawful(env) && Sound(cfg, env, w)
    ensures Sound(cfg, env, DoCreate(cfg, env, w, req, pvName))
  {
    hide CreateVolume, SoundSnapshots, Location, RequestedPath;
    CreateKeepsHealthy(cfg, env, w.ipfs, req);
    CreatedContext(cfg, env, w.ipfs, req);
    var (s, r) := CreateVolume(cfg, env, w.ipfs, req);
    if !Listed(w.pvs, VolumeId(req.name)) && r.Ok? {
      MoreVolumes(cfg, w.pvs, Provisioned(cfg, r.value, pvName));
    }
  }

  lemma {:induction false} MoreVolumes(cfg: Config, pvs: seq<PersistentVolume>, pv: PersistentVolume)
    requires SoundVolumes(cfg, pvs) && (OwnedBy(pv, cfg.driver) ==> pv.csi.value.handle != "")
    requires pv.csi.Some? ==> !Listed(pvs, pv.csi.value.handle)
    ensures SoundVolumes(cfg, pvs + [pv])
  {
    var all := pvs + [pv];
    forall i, j | 0 <= i < j < |all| && all[i].csi.Some? && all[j].csi.Some?
      ensures all[i].csi.value.handle != all[j].csi.value.handle
    {
      assert all[i] in pvs;
    }
  }

  lemma {:induction false} DeleteSound(cfg: Config, env: Env, w: World, id: string)
    requires Sound(cfg, env, w)
    ensures Sound(cfg, env, DoDelete(cfg, env, w, id))
  {
    hide DeleteVolume, Cleanup, SoundSnapshots, Location, VolumeRefs, SnapshotRefs;
    UniqueWithout(w.pvs, id);
    if Ours(cfg, w.pvs, id) {
      DeleteEffects(cfg, env, w, id);
      var a := ToAttributes(Owned(cfg, w.pvs, id));
      CleanupPins(cfg, env, Tick(w.ipfs), w.pvs, w.vscs, a);
      CleanupMfs(cfg, env, Tick(w.ipfs), w.pvs, w.vscs, a);
    } else if !Listed(w.pvs, id) {
      NotListedEffects(cfg, env, w, id);
    }
  }

  /** What the pin call of a snapshot, its third call, is answered. */
  function SnapshotPinReply(env: Env, s: State): Reply { env.reply(PinCall, s.clock + 2) }

  /** The path recorded for a volume is one MFS can resolve. */
  ghost predicate CanSnapshot(cfg: Config, w: World, id: string)
    requires Ours(cfg, w.pvs, id)
  {
    var path := Get(Owned(cfg, w.pvs, id).csi.value.attributes, MFS_PATH);
    IsAbs(path) && Location(path) in w.ipfs.mfs
  }

  /** The capacity recorded for a volume, or one gibibyte if there is none. */
  function SnapshotSize(pv: PersistentVolume): int {
    if pv.capacity.Some? && pv.capacity.value != 0 then pv.capacity.value else 1073741824
  }

  /** A snapshot call that gets as far as a CID: the volume is found, and its path resolves. */
  ghost predicate Resolves(cfg: Config, env: Env, w: World, req: CreateSnapshotRequest)
    requires Ours(cfg, w.pvs, req.sourceVolumeId)
  {
    && req.name != "" && Finds(env, w.ipfs, w.pvs, req.sourceVolumeId) && CanSnapshot(cfg, w, req.sourceVolumeId)
    && env.reply(MfsStatCall, w.ipfs.clock + 1).Success?
  }

  /**
   A snapshot call succeeds exactly if it gets as far as a CID, whatever becomes of the pin.
   It returns the CID of the source volume's tree at that moment.
   */
  lemma {:induction false} TakeEffects(cfg: Config, env: Env, w: World, req: CreateSnapshotRequest)
    requires Lawful(env) && Sound(cfg, env, w) && Ours(cfg, w.pvs, req.sourceVolumeId)
    ensures
      var (s', r) := CreateSnapshot(env, w.ipfs, w.pvs, req);
      && s'.mfs == w.ipfs.mfs
      && (r.Ok? <==> Resolves(cfg, env, w, req))
      && (r.Err? ==> s'.pins == w.ipfs.pins && s'.blocks == w.ipfs.blocks)
      && (r.Ok? ==>
            && env.content(r.value.id) == SourceTree(cfg, w, req.sourceVolumeId)
            && r.value.id == env.cidOf(SourceTree(cfg, w, req.sourceVolumeId))
            && r.value.id != ""
            && s'.pins == w.ipfs.pins + (if SnapshotPinReply(env, w.ipfs).Refused? then {} else {r.value.id})
            && w.ipfs.blocks <= s'.blocks && s'.pins <= s'.blocks
            && r.value.sourceVolumeId == req.sourceVolumeId
            && r.value.sizeBytes == SnapshotSize(Owned(cfg, w.pvs, req.sourceVolumeId))
            && s'.clock == w.ipfs.clock + 3)
      && (NoFailure(env, w.ipfs.clock, s'.clock) && req.name != "" && CanSnapshot(cfg, w, req.sourceVolumeId) ==> r.Ok?)
  {
    hide Lookup, SoundSnapshots, Location;
    OursFound(cfg, w.pvs, env.reply(ListCall, w.ipfs.clock).Success?, req.sourceVolumeId);
    var path := Get(Owned(cfg, w.pvs, req.sourceVolumeId).csi.value.attributes, MFS_PATH);
    if Location(path) in w.ipfs.mfs {
      SubtreeValid(w.ipfs.mfs, Location(path));
    }
  }

  lemma {:induction false} TakeSound(cfg: Config, env: Env, w: World, req: CreateSnapshotRequest, vscName: string)
    requires Lawful(env) && Sound(cfg, env, w)
    ensures Sound(cfg, env, DoTake(cfg, env, w, req, vscName))
  {
    hide CreateSnapshot, SoundVolumes, SoundSnapshots, Location, SourceTree, Recorded;
    if Ours(cfg, w.pvs, req.sourceVolumeId) && !(exists v :: v in w.vscs && v.name == vscName) {
      TakeEffects(cfg, env, w, req);
      var (s, r) := CreateSnapshot(env, w.ipfs, w.pvs, req);
      if r.Ok? && cfg.snapshots {
        RecordedHandle(cfg, r.value, vscName);
        MoreSnapshots(cfg, env, w.vscs, w.taken, Recorded(cfg, r.value, vscName),
                      Taken(SourceTree(cfg, w, req.sourceVolumeId), r.value.id in s.pins));
      }
    }
  }

  lemma {:induction false} RecordedHandle(cfg: Config, v: Snapshot, vscName: string)
    ensures Recorded(cfg, v, vscName).driver == cfg.driver && Recorded(cfg, v, vscName).name == vscName
    ensures Handle(Recorded(cfg, v, vscName)) == v.id
  {
  }

  lemma {:induction false} MoreSnapshots(cfg: Config, env: Env, vscs: seq<SnapshotContent>, taken: map<string, Taken>,
                                         v: SnapshotContent, t: Taken)
    requires SoundSnapshots(cfg, env, vscs, taken) && cfg.snapshots
    requires forall u :: u in vscs ==> u.name != v.name
    requires Handle(v) != "" && env.content(Handle(v)) == t.tree
    ensures SoundSnapshots(cfg, env, vscs + [v], taken[v.name := t])
  {
    hide Handle;
    var all := vscs + [v];
    forall i, j | 0 <= i < j < |all| ensures all[i].name != all[j].name {
      assert all[i] in vscs;
    }
    forall u | u in all && u.driver == cfg.driver ensures SoundSnapshot(cfg, env, u, taken[v.name := t]) {
      assert u in vscs || u == v;
    }
  }

  lemma {:induction false} FewerSnapshots(cfg: Config, env: Env, vscs: seq<SnapshotContent>, taken: map<string, Taken>,
                                          name: string)
    requires SoundSnapshots(cfg, env, vscs, taken)
    ensures SoundSnapshots(cfg, env, WithoutName(vscs, name), taken - {name})
  {
    hide Handle;
    DistinctWithout(vscs, name);
    var out := WithoutName(vscs, name);
    forall u | u in out && u.driver == cfg.driver ensures SoundSnapshot(cfg, env, u, taken - {name}) {
      assert SoundSnapshot(cfg, env, u, taken);
    }
  }

  lemma {:induction false} DropEffects(cfg: Config, env: Env, w: World, cid: string)
    ensures
      var (s', r) := DeleteSnapshot(cfg, env, w.ipfs, w.pvs, w.vscs, cid);
      && s'.mfs == w.ipfs.mfs && s'.blocks == w.ipfs.blocks
      && (s'.pins == w.ipfs.pins ||
          (r.Ok? && s'.pins == w.ipfs.pins - {cid} && cid in w.ipfs.pins && cfg.snapshots
           && VolumeRefs(w.pvs, cfg.driver, cid, "") == 0
           && SnapshotRefs(w.vscs, cfg.driver, cid, true) == 0))
  {
    hide VolumeRefs, SnapshotRefs;
  }

  lemma {:induction false} DropSound(cfg: Config, env: Env, w: World, vscName: string)
    requires Sound(cfg, env, w)
    ensures Sound(cfg, env, DoDrop(cfg, env, w, vscName))
  {
    hide DeleteSnapshot, SoundVolumes, SoundSnapshots, VolumeRefs, SnapshotRefs;
    FewerSnapshots(cfg, env, w.vscs, w.taken, vscName);
    forall cid: string {
      DropEffects(cfg, env, w, cid);
    }
  }

  lemma {:induction false} StageSound(cfg: Config, env: Env, w: World, id: string, dir: string)
    requires Lawful(env) && Sound(cfg, env, w)
    ensures Sound(cfg, env, DoStage(cfg, env, w, id, dir))
    ensures DoStage(cfg, env, w, id, dir).ipfs.mfs == w.ipfs.mfs
    ensures DoStage(cfg, env, w, id, dir).ipfs.pins == w.ipfs.pins
  {
    hide Stage, SoundVolumes, SoundSnapshots, Location, Materialized;
    if Ours(cfg, w.pvs, id) {
      StageShowsContent(env, w.ipfs, Owned(cfg, w.pvs, id).csi.value.attributes, Found(w.stagings, dir));
    }
  }

  /** Unstaging an owned volume imports at the place it writes to, or does nothing. */
  lemma {:induction false} UnstageEffects(cfg: Config, env: Env, w: World, id: string, dir: string)
    requires Lawful(env) && Sound(cfg, env, w) && Ours(cfg, w.pvs, id)
    ensures
      var (s', r) := Unstage(env, w.ipfs, w.pvs, id, Found(w.stagings, dir));
      var (context, p) := (Owned(cfg, w.pvs, id).csi.value.attributes, PlaceIn(cfg, w, id));
      && (!WouldImport(env, w, id) ==> s' == Tick(w.ipfs) && r.Ok?)
      && (WouldImport(env, w, id) ==>
            && WriteTarget(context) == Some(p)
            && Kept(w.ipfs, s', p)
            && (r.Ok? && dir in w.stagings && UnstageClears(env, w.ipfs, p) ==>
                  IsAbs(Get(context, MFS_PATH)) && Subtree(s'.mfs, p) == w.stagings[dir]))
  {
    hide Lookup, Import, SoundSnapshots, Location, Kept, Subtree;
    OursFound(cfg, w.pvs, env.reply(ListCall, w.ipfs.clock).Success?, id);
    if WouldImport(env, w, id) {
      var path := Get(Owned(cfg, w.pvs, id).csi.value.attributes, MFS_PATH);
      ImportKept(env, Tick(w.ipfs), Found(w.stagings, dir), path);
      TickKept(w.ipfs, Import(env, Tick(w.ipfs), Found(w.stagings, dir), path).0, Location(path));
    }
  }

  lemma {:induction false} TickKept(s: State, s': State, p: Path)
    requires Kept(Tick(s), s', p)
    ensures Kept(s, s', p)
  {
  }

  lemma {:induction false} ImportKept(env: Env, s: State, local: Option<Tree>, path: string)
    requires Lawful(env) && ValidDir(s.mfs)
    requires local.Some? ==> ValidDir(local.value)
    ensures
      var (s', ok) := Import(env, s, local, path);
      && Kept(s, s', Location(path))
      && (ok ==> local.Some? && IsAbs(path))
      && (ok && Clears(env, s.clock, Location(path)) ==> Subtree(s'.mfs, Location(path)) == local.value)
  {
    hide CopyWalk, Location, Subtree;
    if local.Some? {
      hide *;
      ImportResult(env, s, local.value, path);
      if Import(env, s, local, path).1 && Clears(env, s.clock, Location(path)) {
        ImportMirrors(env, s, local.value, path);
      }
    } else {
      RmKept(env, s, path);
      var s1 := Rm(env, s, path).0;
      MkdirResult(env, s1, Location(path));
      RemovalLeaves(env, s, Location(path));
      OutsideOfChain(s.mfs, s1.mfs, Location(path));
    }
  }

  lemma {:induction false} UnstageSound(cfg: Config, env: Env, w: World, id: string, dir: string, cleaned: bool)
    requires Lawful(env) && Sound(cfg, env, w)
    ensures Sound(cfg, env, DoUnstage(cfg, env, w, id, dir, cleaned))
  {
    hide Unstage, SoundVolumes, SoundSnapshots, Location, WouldImport, Kept, UnstageClears;
    if Ours(cfg, w.pvs, id) {
      UnstageEffects(cfg, env, w, id, dir);
      if WouldImport(env, w, id) {
        KeptIsHealthy(w.ipfs, Unstage(env, w.ipfs, w.pvs, id, Found(w.stagings, dir)).0, PlaceIn(cfg, w, id));
      }
    }
  }

  lemma {:induction false} AppearanceSound(cfg: Config, env: Env, w: World, step: Step)
    requires Sound(cfg, env, w) && (step.VolumeAppears? || step.SnapshotAppears?)
    ensures Sound(cfg, env, Do(cfg, env, w, step))
  {
    hide SoundVolumes, SoundSnapshots, Handle, ValidTree;
    if step.VolumeAppears? {
      if Do(cfg, env, w, step) != w {
        MoreVolumes(cfg, w.pvs, step.pv);
      }
    } else if Do(cfg, env, w, step) != w {
      var handle := Handle(step.vsc);
      MoreSnapshots(cfg, env, w.vscs, w.taken, step.vsc, Taken(env.content(handle), handle in w.ipfs.pins));
    }
  }

  lemma {:induction false} StepSound(cfg: Config, env: Env, w: World, step: Step)
    requires Lawful(env) && Sound(cfg, env, w)
    ensures Sound(cfg, env, Do(cfg, env, w, step))
  {
    hide DoCreate, DoDelete, DoTake, DoDrop, DoStage, DoUnstage, DoVolumeAppears, DoSnapshotAppears,
         SoundVolumes, SoundSnapshots;
    match step {
      case Create(req, pvName) => CreateSound(cfg, env, w, req, pvName);
      case Delete(id) => DeleteSound(cfg, env, w, id);
      case Take(req, vscName) => TakeSound(cfg, env, w, req, vscName);
      case Drop(vscName) => DropSound(cfg, env, w, vscName);
      case StageAt(id, dir) => StageSound(cfg, env, w, id, dir);
      case Write(dir, tree) =>
      case UnstageAt(id, dir, cleaned) => UnstageSound(cfg, env, w, id, dir, cleaned);
      case CollectGarbage(keep) =>
      case VolumeAppears(_) => AppearanceSound(cfg, env, w, step);
      case SnapshotAppears(_) => AppearanceSound(cfg, env, w, step);
    }
  }

  lemma {:induction false} RunSound(cfg: Config, env: Env, w: World, steps: seq<Step>)
    requires Lawful(env) && Initial(cfg, w)
    ensures Sound(cfg, env, Run(cfg, env, w, steps))
  {
    hide Do, Sound;
    if steps == [] {
      InitialSound(cfg, env, w);
    } else {
      RunSound(cfg, env, w, steps[..|steps| - 1]);
      StepSound(cfg, env, Run(cfg, env, w, steps[..|steps| - 1]), steps[|steps| - 1]);
    }
  }

  lemma {:induction false} InitialSound(cfg: Config, env: Env, w: World)
    requires Initial(cfg, w)
    ensures Sound(cfg, env, w)
  {
  }

  // ------------------------------------------------------------ time

  lemma {:induction false} CreateTakesTime(cfg: Config, env: Env, s: State, req: CreateVolumeRequest)
    ensures s.clock <= CreateVolume(cfg, env, s, req).0.clock
  {
    hide RequestedPath, GetCID, Import, VolumeOf, Reachable, Location;
    var snapshot := Validate(req);
    if snapshot.Ok? {
      var (s1, path) := Prepare(cfg, env, s, req);
      if path.Ok? {
        RestoreTakesTime(env, s1, snapshot.value, path.value);
      }
    }
  }

  lemma {:induction false} RestoreTakesTime(env: Env, s: State, snapshot: string, path: string)
    ensures s.clock <= Restore(env, s, snapshot, path).0.clock
  {
    hide Import, WriteNode, Torn, Held;
    var (s3, dir, got) := GetCID(env, Tick(Tick(s)), snapshot, EMPTY_DIR);
    ImportTakesTime(env, s3, Some(dir), path);
  }

  lemma {:induction false} UnstageTakesTime(env: Env, s: State, pvs: seq<PersistentVolume>, id: string,
                                            staging: Option<Tree>)
    ensures s.clock <= Unstage(env, s, pvs, id, staging).0.clock
  {
    hide Lookup, Import;
    var a := Lookup(pvs, env.reply(ListCall, s.clock).Success?, id);
    if a.Ok? {
      ImportTakesTime(env, Tick(s), staging, Get(a.value.attributes, MFS_PATH));
    }
  }

  lemma {:induction false} DeleteTakesTime(cfg: Config, env: Env, s: State, pvs: seq<PersistentVolume>,
                                           vscs: seq<SnapshotContent>, id: string)
    ensures s.clock <= DeleteVolume(cfg, env, s, pvs, vscs, id).0.clock
  {
    hide Lookup, Cleanup, VolumeRefs, SnapshotRefs;
    var a := Lookup(pvs, env.reply(ListCall, s.clock).Success?, id);
    if a.Ok? {
      CleanupPins(cfg, env, Tick(s), pvs, vscs, a.value);
    }
  }

  lemma {:induction false} StageTakesTime(env: Env, s: State, context: map<string, string>, staging: Option<Tree>)
    ensures s.clock <= Stage(env, s, context, staging).0.clock
  {
    hide Location, Subtree, WriteNode, Torn, Held;
  }

  lemma {:induction false} SnapshotsTakeTime(cfg: Config, env: Env, w: World, req: CreateSnapshotRequest)
    ensures w.ipfs.clock <= CreateSnapshot(env, w.ipfs, w.pvs, req).0.clock
    ensures forall id :: w.ipfs.clock <= DeleteSnapshot(cfg, env, w.ipfs, w.pvs, w.vscs, id).0.clock
  {
    hide Lookup, Location, Subtree, VolumeRefs, SnapshotRefs;
  }

  /** Time never runs backwards. */
  lemma {:induction false} StepTakesTime(cfg: Config, env: Env, w: World, step: Step)
    ensures w.ipfs.clock <= Do(cfg, env, w, step).ipfs.clock
  {
    hide CreateVolume, DeleteVolume, CreateSnapshot, DeleteSnapshot, Stage, Unstage, WouldImport, SourceTree, PlaceIn,
         ValidDir, Listed, Handle, UnstageClears;
    match step {
      case Create(req, _) => CreateTakesTime(cfg, env, w.ipfs, req);
      case Delete(id) => DeleteTakesTime(cfg, env, w.ipfs, w.pvs, w.vscs, id);
      case Take(req, _) => SnapshotsTakeTime(cfg, env, w, req);
      case Drop(_) => SnapshotsTakeTime(cfg, env, w, CreateSnapshotRequest("", ""));
      case StageAt(id, dir) =>
        if Ours(cfg, w.pvs, id) {
          StageTakesTime(env, w.ipfs, Owned(cfg, w.pvs, id).csi.value.attributes, Found(w.stagings, dir));
        }
      case UnstageAt(id, dir, _) => UnstageTakesTime(env, w.ipfs, w.pvs, id, Found(w.stagings, dir));
      case _ =>
    }
  }

  lemma {:induction false} RunTakesTime(cfg: Config, env: Env, w: World, steps: seq<Step>)
    ensures w.ipfs.clock <= Run(cfg, env, w, steps).ipfs.clock
  {
    hide Do;
    if steps != [] {
      RunTakesTime(cfg, env, w, steps[..|steps| - 1]);
      StepTakesTime(cfg, env, Run(cfg, env, w, steps[..|steps| - 1]), steps[|steps| - 1]);
    }
  }

  // ------------------------------------------------------------ kinds

  ghost predicate AllWellFormed(cfg: Config, w: World) {
    forall pv :: pv in w.pvs && OwnedBy(pv, cfg.driver) ==> WellFormed(cfg, pv.csi.value.attributes)
  }

  /** What somebody brings in under this driver's name has the shape the driver itself would have given it. */
  ghost predicate BringsWellFormed(cfg: Config, step: Step) {
    step.VolumeAppears? && OwnedBy(step.pv, cfg.driver) ==> WellFormed(cfg, step.pv.csi.value.attributes)
  }

  lemma {:induction false} StepWellFormed(cfg: Config, env: Env, w: World, step: Step)
    requires SafeRoot(cfg.mfsRoot) && AllWellFormed(cfg, w) && BringsWellFormed(cfg, step)
    ensures AllWellFormed(cfg, Do(cfg, env, w, step))
  {
    hide CreateVolume, DeleteVolume, CreateSnapshot, DeleteSnapshot, Stage, Unstage, WouldImport, WellFormed,
         PlaceIn, ValidDir, SafeRoot;
    if step.Create? {
      CreatedIsWellFormed(cfg, env, w.ipfs, step.req);
    }
  }

  /** In every run, every listed volume is read-only exactly if it has a CID, and else lies under the root. */
  lemma {:induction false} RunWellFormed(cfg: Config, env: Env, w: World, steps: seq<Step>)
    requires SafeRoot(cfg.mfsRoot) && Initial(cfg, w)
    requires forall i :: 0 <= i < |steps| ==> BringsWellFormed(cfg, steps[i])
    ensures AllWellFormed(cfg, Run(cfg, env, w, steps))
  {
    hide Do, SafeRoot, WellFormed;
    if steps != [] {
      RunWellFormed(cfg, env, w, steps[..|steps| - 1]);
      StepWellFormed(cfg, env, Run(cfg, env, w, steps[..|steps| - 1]), steps[|steps| - 1]);
    }
  }
}
