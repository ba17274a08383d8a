/** The controller RPCs as transformations of the IPFS state. */
module Controller {
  import opened Results
  import opened Counting
  import opened Paths
  import opened Trees
  import opened Ipfs
  import opened VolumeStore
  import opened SnapshotStore

  const CID := "cid"
  const MFS_PATH := "mfspath"
  const PINNING := "pinning"
  const READ_ONLY := "readonly"

  const DEFAULT_CAPACITY := 1024 * 1024 * 1024

  /** `snapshots`: whether the snapshot API, and with it the snapshot store, is available. */
  datatype Config = Config(driver: string, mfsRoot: string, bestEffort: bool, snapshots: bool)

  datatype ContentSource = FromSnapshot(id: string) | FromVolume(id: string) | UnknownSource

  datatype CapacityRange = CapacityRange(required: int, limit: int)

  datatype CreateVolumeRequest = CreateVolumeRequest(name: string, parameters: map<string, string>,
                                                     source: Option<ContentSource>, capacity: Option<CapacityRange>)

  datatype Volume = Volume(id: string, capacity: int, context: map<string, string>, source: Option<string>)

  datatype CreateSnapshotRequest = CreateSnapshotRequest(name: string, sourceVolumeId: string)

  datatype Snapshot = Snapshot(id: string, sourceVolumeId: string, sizeBytes: int)

  function RequestedCapacity(range: Option<CapacityRange>): (size: int)
    ensures size > 0
    ensures range.Some? && range.value.required > 0 ==> size == range.value.required
    ensures range.Some? && range.value.required == 0 && range.value.limit > 0 ==> size == range.value.limit
    ensures size != 1073741824 ==> range.Some? && size in {range.value.required, range.value.limit}
  {
    if range.None? then DEFAULT_CAPACITY
    else
      var size := if range.value.required == 0 then range.value.limit else range.value.required;
      if size <= 0 then DEFAULT_CAPACITY else size
  }

  predicate PinningEnabled(attributes: map<string, string>) { Get(attributes, PINNING) != "false" }

  /** Where deleting a volume and unstaging it write in MFS, if anywhere. */
  function WriteTarget(context: map<string, string>): Option<Path> {
    var path := Get(context, MFS_PATH);
    if path != "" && Get(context, READ_ONLY) != "true" then Some(Location(path)) else None
  }

  // ------------------------------------------------------------ CreateVolume

  function SnapshotSourceId(source: Option<ContentSource>): Result<string> {
    match source
    case None => Ok("")
    case Some(FromSnapshot(id)) => if id == "" then Err(InvalidArgument) else Ok(id)
    case Some(_) => Err(InvalidArgument)
  }

  /** The checks made before the lock is taken; the result is the snapshot to restore, or empty. */
  function Validate(req: CreateVolumeRequest): Result<string> {
    if req.name == "" then Err(InvalidArgument)
    else
      var snapshot := SnapshotSourceId(req.source);
      if snapshot.Ok? && snapshot.value != "" && Get(req.parameters, CID) != "" then Err(InvalidArgument)
      else snapshot
  }

  /** Content of a fixed CID: it must exist, and is pinned unless pinning is turned off. */
  function PrepareCid(cfg: Config, env: Env, s: State, req: CreateVolumeRequest): (State, Result<string>) {
    var cid := Get(req.parameters, CID);
    var (s1, found) := Stat(env, s, cid);
    if found.Err? then (s1, Err(Internal))
    else if !found.value then (s1, Err(NotFound))
    else if !PinningEnabled(req.parameters) then (s1, Ok(Get(req.parameters, MFS_PATH)))
    else
      var (s2, pinned) := Pin(env, s1, cid);
      if pinned || cfg.bestEffort then (s2, Ok(Get(req.parameters, MFS_PATH))) else (s2, Err(Internal))
  }

  /** The MFS path a read-write volume asks for, or the one made from its name. */
  function RequestedPath(cfg: Config, req: CreateVolumeRequest): Result<string> {
    var given := Get(req.parameters, MFS_PATH);
    NormalizeMFSPath(if given != "" then given else cfg.mfsRoot + "/" + Sanitize(req.name), cfg.mfsRoot)
  }

  function PrepareMfs(cfg: Config, env: Env, s: State, req: CreateVolumeRequest): (State, Result<string>) {
    var path := RequestedPath(cfg, req);
    if path.Err? then (s, Err(InvalidArgument))
    else
      var (s1, made) := Mkdir(env, s, path.value);
      (s1, if made then path else Err(Internal))
  }

  function Prepare(cfg: Config, env: Env, s: State, req: CreateVolumeRequest): (State, Result<string>) {
    if Get(req.parameters, CID) != "" then PrepareCid(cfg, env, s, req) else PrepareMfs(cfg, env, s, req)
  }

  /** Snapshot content is downloaded to a fresh temporary directory and imported from there. */
  ghost function Restore(env: Env, s: State, snapshot: string, path: string): (State, Result<()>) {
    var (s1, found) := Stat(env, s, snapshot);
    if found.Err? then (s1, Err(Internal))
    else if !found.value then (s1, Err(NotFound))
    else
      var (s2, made) := Consult(env, s1, LocalCall);
      if !made then (s2, Err(Internal))
      else
        var (s3, dir, got) := GetCID(env, s2, snapshot, EMPTY_DIR);
        if !got then (s3, Err(Internal))
        else
          var (s4, imported) := Import(env, s3, Some(dir), path);
          (s4, if imported then Ok(()) else Err(Internal))
  }

  function VolumeOf(req: CreateVolumeRequest, snapshot: string, path: string): Volume {
    var cid := Get(req.parameters, CID);
    Volume(VolumeId(req.name),
           RequestedCapacity(req.capacity),
           req.parameters[CID := cid][MFS_PATH := path][READ_ONLY := if cid != "" then "true" else "false"],
           if snapshot != "" then Some(snapshot) else None)
  }

  ghost function CreateLocked(cfg: Config, env: Env, s: State, req: CreateVolumeRequest, snapshot: string)
    : (State, Result<Volume>)
  {
    var (s1, path) := Prepare(cfg, env, s, req);
    if path.Err? then (s1, Err(path.code))
    else if snapshot == "" then (s1, Ok(VolumeOf(req, snapshot, path.value)))
    else
      var (s2, restored) := Restore(env, s1, snapshot, path.value);
      (s2, if restored.Ok? then Ok(VolumeOf(req, snapshot, path.value)) else Err(restored.code))
  }

  ghost function CreateVolume(cfg: Config, env: Env, s: State, req: CreateVolumeRequest): (State, Result<Volume>) {
    var snapshot := Validate(req);
    if snapshot.Err? then (s, Err(snapshot.code)) else CreateLocked(cfg, env, s, req, snapshot.value)
  }

  // ------------------------------------------------------------ reference counting

  predicate RefersTo(a: VolumeAttributes, cid: string, excluded: string) {
    a.volumeId != excluded && Get(a.attributes, CID) == cid && PinningEnabled(a.attributes)
  }

  /** A volume of this driver, other than the excluded one, that keeps `cid` pinned. */
  predicate IsVolumeRef(pv: PersistentVolume, driver: string, cid: string, excluded: string) {
    OwnedBy(pv, driver) && RefersTo(ToAttributes(pv), cid, excluded)
  }

  function VolumeRefs(pvs: seq<PersistentVolume>, driver: string, cid: string, excluded: string): nat {
    CountIf(pv => IsVolumeRef(pv, driver, cid, excluded), pvs)
  }

  function SnapshotRefs(vscs: seq<SnapshotContent>, driver: string, cid: string, excludeOne: bool): nat {
    var n := CountIf(v => HoldsCid(v, driver, cid), vscs);
    if excludeOne && n > 0 then n - 1 else n
  }

  function RefUsage(cfg: Config, env: Env, s: State, pvs: seq<PersistentVolume>, vscs: seq<SnapshotContent>,
                    cid: string, excluded: string, excludeOne: bool): (State, Result<(nat, nat)>)
  {
    var (s1, listed) := Consult(env, s, ListCall);
    var volumeRefs := VolumeRefs(pvs, cfg.driver, cid, excluded);
    if !listed then (s1, Err(Internal))
    else if !cfg.snapshots then (s1, if excludeOne then Err(FailedPrecondition) else Ok((volumeRefs, 0)))
    else
      var (s2, listedToo) := Consult(env, s1, ListCall);
      (s2, if listedToo then Ok((volumeRefs, SnapshotRefs(vscs, cfg.driver, cid, excludeOne))) else Err(Internal))
  }

  lemma {:induction false} VolumesCounted(pvs: seq<PersistentVolume>, driver: string, cid: string, excluded: string)
    ensures CountIf(a => RefersTo(a, cid, excluded), Volumes(pvs, driver)) == VolumeRefs(pvs, driver, cid, excluded)
  {
    if pvs != [] {
      var n := |pvs| - 1;
      VolumesCounted(pvs[..n], driver, cid, excluded);
      CountConcat(a => RefersTo(a, cid, excluded), Volumes(pvs[..n], driver),
                  if OwnedBy(pvs[n], driver) then [ToAttributes(pvs[n])] else []);
    }
  }

  /** A volume of the driver, called otherwise, that records the CID and does not say `false` for pinning. */
  predicate Refers(pv: PersistentVolume, driver: string, cid: string, excluded: string) {
    && pv.csi.Some? && pv.csi.value.driver == driver
    && (if pv.csi.value.handle != "" then pv.csi.value.handle != excluded else pv.name != excluded)
    && (if "cid" in pv.csi.value.attributes then pv.csi.value.attributes["cid"] == cid else cid == "")
    && ("pinning" in pv.csi.value.attributes ==> pv.csi.value.attributes["pinning"] != "false")
  }

  lemma {:induction false} RefersMeans(pv: PersistentVolume, driver: string, cid: string, excluded: string)
    ensures IsVolumeRef(pv, driver, cid, excluded) <==> Refers(pv, driver, cid, excluded)
  {
  }

  /**
   The counts are cardinalities: the listed volumes of this driver with another handle,
   the same cid and pinning not turned off; and the listed snapshots of this driver that
   stand for the cid, by their status or else by their spec, less the one being deleted.
   */
  lemma {:induction false} CountsAreCardinalities(pvs: seq<PersistentVolume>, vscs: seq<SnapshotContent>,
                                                  driver: string, cid: string, excluded: string, excludeOne: bool)
    ensures
      VolumeRefs(pvs, driver, cid, excluded) == |set i | 0 <= i < |pvs| && Refers(pvs[i], driver, cid, excluded)|
    ensures
      var listed := |set i | 0 <= i < |vscs| && vscs[i].driver == driver && StandsFor(vscs[i], cid)|;
      SnapshotRefs(vscs, driver, cid, excludeOne) == if excludeOne && listed > 0 then listed - 1 else listed
  {
    hide Refers, StandsFor, Handle, IsVolumeRef, HoldsCid;
    var p := (pv: PersistentVolume) => IsVolumeRef(pv, driver, cid, excluded);
    var q := (v: SnapshotContent) => HoldsCid(v, driver, cid);
    CountIsCardinality(p, pvs, |pvs|);
    CountIsCardinality(q, vscs, |vscs|);
    assert pvs[..|pvs|] == pvs && vscs[..|vscs|] == vscs;
    forall pv: PersistentVolume {
      RefersMeans(pv, driver, cid, excluded);
    }
    forall v: SnapshotContent {
      HoldsMeans(v, driver, cid);
    }
    assert Hits(p, pvs, |pvs|) == set i | 0 <= i < |pvs| && Refers(pvs[i], driver, cid, excluded);
    assert Hits(q, vscs, |vscs|) == set i | 0 <= i < |vscs| && vscs[i].driver == driver && StandsFor(vscs[i], cid);
  }

  /** Counts taken from a view that has at least the same objects are never smaller. */
  lemma {:induction false} CountsAreConservative(pvs: seq<PersistentVolume>, vscs: seq<SnapshotContent>,
                                                 morePvs: seq<PersistentVolume>, moreVscs: seq<SnapshotContent>,
                                                 driver: string, cid: string, excluded: string, excludeOne: bool)
    requires multiset(pvs) <= multiset(morePvs) && multiset(vscs) <= multiset(moreVscs)
    ensures VolumeRefs(pvs, driver, cid, excluded) <= VolumeRefs(morePvs, driver, cid, excluded)
    ensures SnapshotRefs(vscs, driver, cid, excludeOne) <= SnapshotRefs(moreVscs, driver, cid, excludeOne)
  {
    CountConservative(pv => IsVolumeRef(pv, driver, cid, excluded), pvs, morePvs);
    CountConservative(v => HoldsCid(v, driver, cid), vscs, moreVscs);
  }

  // ------------------------------------------------------------ DeleteVolume

  /** Unpins when nothing else refers to the CID, and removes the MFS tree of a read-write volume. */
  function Cleanup(cfg: Config, env: Env, s: State, pvs: seq<PersistentVolume>, vscs: seq<SnapshotContent>,
                   a: VolumeAttributes): State
  {
    var cid, path := Get(a.attributes, CID), Get(a.attributes, MFS_PATH);
    var s1 :=
      if cid != "" && PinningEnabled(a.attributes) then
        var (s', refs) := RefUsage(cfg, env, s, pvs, vscs, cid, a.volumeId, false);
        if refs == Ok((0, 0)) then Unpin(env, s', cid).0 else s'
      else s;
    if path != "" && Get(a.attributes, READ_ONLY) != "true" then Rm(env, s1, path).0 else s1
  }

  function DeleteVolume(cfg: Config, env: Env, s: State, pvs: seq<PersistentVolume>, vscs: seq<SnapshotContent>,
                        id: string): (State, Result<()>)
  {
    if id == "" then (s, Err(InvalidArgument))
    else
      var (s1, listed) := Consult(env, s, ListCall);
      match Lookup(pvs, listed, id)
      case Ok(a) => (Cleanup(cfg, env, s1, pvs, vscs, a), Ok(()))
      case Err(code) => (s1, if code == NotFound then Ok(()) else Err(Internal))
  }

  // ------------------------------------------------------------ snapshots

  function CreateSnapshot(env: Env, s: State, pvs: seq<PersistentVolume>, req: CreateSnapshotRequest)
    : (State, Result<Snapshot>)
  {
    if req.name == "" || req.sourceVolumeId == "" then (s, Err(InvalidArgument))
    else
      var (s1, listed) := Consult(env, s, ListCall);
      match Lookup(pvs, listed, req.sourceVolumeId)
      case Err(code) => (s1, Err(if code == NotFound then NotFound else Internal))
      case Ok(a) =>
        var path := Get(a.attributes, MFS_PATH);
        if path == "" then (s1, Err(InvalidArgument))
        else
          var (s2, cid) := ResolveMFS(env, s1, path);
          if cid.None? then (s2, Err(Internal))
          else
            (Pin(env, s2, cid.value).0,
             Ok(Snapshot(cid.value, req.sourceVolumeId, if a.capacity == 0 then DEFAULT_CAPACITY else a.capacity)))
  }

  function DeleteSnapshot(cfg: Config, env: Env, s: State, pvs: seq<PersistentVolume>, vscs: seq<SnapshotContent>,
                          id: string): (State, Result<()>)
  {
    if id == "" then (s, Err(InvalidArgument))
    else
      var (s1, refs) := RefUsage(cfg, env, s, pvs, vscs, id, "", true);
      match refs
      case Err(code) => (s1, Err(code))
      case Ok((volumeRefs, snapshotRefs)) =>
        (if volumeRefs > 0 || snapshotRefs > 0 then s1 else Unpin(env, s1, id).0, Ok(()))
  }

  // ------------------------------------------------------------ errors

  /** What a deletion reports: not found is success, and so is everything once the volume is found. */
  lemma {:induction false} DeleteErrors(cfg: Config, env: Env, s: State, pvs: seq<PersistentVolume>,
                                        vscs: seq<SnapshotContent>, id: string)
    ensures
      var r := DeleteVolume(cfg, env, s, pvs, vscs, id).1;
      && (r == Err(InvalidArgument) <==> id == "")
      && (r.Err? && id != "" ==> r == Err(Internal) && !env.reply(ListCall, s.clock).Success?)
      && (r == Err(Internal) <==> id != "" && Lookup(pvs, env.reply(ListCall, s.clock).Success?, id) == Err(Internal))
  {
    hide Cleanup;
    ByNameIsListed(pvs, id);
  }

  /** What a snapshot call reports, by the first thing that goes wrong. */
  lemma {:induction false} SnapshotErrors(env: Env, s: State, pvs: seq<PersistentVolume>, req: CreateSnapshotRequest)
    ensures
      var r := CreateSnapshot(env, s, pvs, req).1;
      var found := Lookup(pvs, env.reply(ListCall, s.clock).Success?, req.sourceVolumeId);
      var asked := req.name != "" && req.sourceVolumeId != "";
      && (r == Err(InvalidArgument) <==>
            !asked || (found.Ok? && ("mfspath" in found.value.attributes ==> found.value.attributes["mfspath"] == "")))
      && (r == Err(NotFound) <==> asked && found == Err(NotFound))
      && (r.Err? ==> r in {Err(InvalidArgument), Err(NotFound), Err(Internal)})
  {
    hide Subtree, Location;
  }

  /** What a snapshot deletion reports. */
  lemma {:induction false} DropErrors(cfg: Config, env: Env, s: State, pvs: seq<PersistentVolume>,
                                      vscs: seq<SnapshotContent>, id: string)
    ensures
      var r := DeleteSnapshot(cfg, env, s, pvs, vscs, id).1;
      var (first, second) := (env.reply(ListCall, s.clock).Success?, env.reply(ListCall, s.clock + 1).Success?);
      && (r == Err(InvalidArgument) <==> id == "")
      && (r == Err(FailedPrecondition) <==> id != "" && first && !cfg.snapshots)
      && (r == Err(Internal) <==> id != "" && (!first || (cfg.snapshots && !second)))
      && (r.Err? ==> r in {Err(InvalidArgument), Err(FailedPrecondition), Err(Internal)})
  {
    hide VolumeRefs, SnapshotRefs;
  }
}
