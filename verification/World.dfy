/**
 Whole runs of the driver in its cluster. A step is one RPC together with the object
 update it causes, an object somebody else brings in, a pod writing, or a garbage
 collection; calls to IPFS, to the informers and to the local file system fail as the
 environment decides.
 */
module World {
  import opened Results
  import opened Paths
  import opened Trees
  import opened Ipfs
  import opened VolumeStore
  import opened SnapshotStore
  import opened Controller
  import opened NodeService

  /** What was true when a snapshot was taken: the source volume's tree, and whether its CID got pinned. */
  datatype Taken = Taken(tree: Tree, pinned: bool)

  /**
   `taken` remembers every listed snapshot by object name, `saved` the tree a volume was
   last unstaged with, `loose` the volumes brought in while their CID was not pinned; the
   driver itself has none of these.
   */
  datatype World = World(ipfs: State, pvs: seq<PersistentVolume>, vscs: seq<SnapshotContent>,
                         stagings: map<string, Tree>, taken: map<string, Taken>, saved: map<string, Tree>,
                         loose: set<string>)

  datatype Step =
    | Create(req: CreateVolumeRequest, pvName: string)
    | Delete(id: string)
    | Take(snap: CreateSnapshotRequest, vscName: string)
    | Drop(vscName: string)
    | StageAt(id: string, dir: string)
    | Write(dir: string, tree: Tree)
    | UnstageAt(id: string, dir: string, cleaned: bool)
    | CollectGarbage(keep: set<string>)
    | VolumeAppears(pv: PersistentVolume)
    | SnapshotAppears(vsc: SnapshotContent)

  predicate Listed(pvs: seq<PersistentVolume>, id: string) { exists pv :: pv in pvs && HasHandle(pv, id) }

  predicate Ours(cfg: Config, pvs: seq<PersistentVolume>, id: string) {
    exists pv :: pv in pvs && HasHandle(pv, id) && OwnedBy(pv, cfg.driver)
  }

  /** The listed volume of this driver with the handle. */
  ghost function Owned(cfg: Config, pvs: seq<PersistentVolume>, id: string): (pv: PersistentVolume)
    requires Ours(cfg, pvs, id)
    ensures pv in pvs && HasHandle(pv, id) && OwnedBy(pv, cfg.driver)
  {
    var pv :| pv in pvs && HasHandle(pv, id) && OwnedBy(pv, cfg.driver); pv
  }

  function WithoutHandle(pvs: seq<PersistentVolume>, id: string): (out: seq<PersistentVolume>)
    ensures forall pv :: pv in out <==> pv in pvs && !HasHandle(pv, id)
  {
    if pvs == [] then [] else (if HasHandle(pvs[0], id) then [] else [pvs[0]]) + WithoutHandle(pvs[1..], id)
  }

  function WithoutName(vscs: seq<SnapshotContent>, name: string): (out: seq<SnapshotContent>)
    ensures forall v :: v in out <==> v in vscs && v.name != name
  {
    if vscs == [] then [] else (if vscs[0].name == name then [] else [vscs[0]]) + WithoutName(vscs[1..], name)
  }

  function Found(m: map<string, Tree>, dir: string): Option<Tree> { if dir in m then Some(m[dir]) else None }

  // ------------------------------------------------------------ steps

  /** The provisioner writes the returned volume into a new object, unless the handle is taken already. */
  ghost function DoCreate(cfg: Config, env: Env, w: World, req: CreateVolumeRequest, pvName: string): World {
    if Listed(w.pvs, VolumeId(req.name)) then w
    else
      var (s, r) := CreateVolume(cfg, env, w.ipfs, req);
      w.(ipfs := s,
         pvs := if r.Ok? then w.pvs + [Provisioned(cfg, r.value, pvName)] else w.pvs)
  }

  function Provisioned(cfg: Config, v: Controller.Volume, pvName: string): PersistentVolume {
    PersistentVolume(pvName, Some(v.capacity), Some(CsiSource(cfg.driver, v.id, v.context)))
  }

  /** The object goes away once the call has succeeded. */
  ghost function DoDelete(cfg: Config, env: Env, w: World, id: string): World {
    if Listed(w.pvs, id) && !Ours(cfg, w.pvs, id) then w
    else
      var (s, r) := DeleteVolume(cfg, env, w.ipfs, w.pvs, w.vscs, id);
      w.(ipfs := s,
         pvs := if r.Ok? then WithoutHandle(w.pvs, id) else w.pvs,
         loose := if r.Ok? then w.loose - {id} else w.loose,
         saved := if r.Ok? then w.saved - {id} else w.saved)
  }

  ghost function SourceTree(cfg: Config, w: World, id: string): Tree
    requires Ours(cfg, w.pvs, id)
  {
    Subtree(w.ipfs.mfs, PlaceIn(cfg, w, id))
  }

  /** With the snapshot API installed, the returned handle is recorded in a new object. */
  ghost function DoTake(cfg: Config, env: Env, w: World, req: CreateSnapshotRequest, vscName: string): World {
    if !Ours(cfg, w.pvs, req.sourceVolumeId) || exists v :: v in w.vscs && v.name == vscName then w
    else
      var (s, r) := CreateSnapshot(env, w.ipfs, w.pvs, req);
      if r.Err? || !cfg.snapshots then w.(ipfs := s)
      else
        w.(ipfs := s,
           vscs := w.vscs + [Recorded(cfg, r.value, vscName)],
           taken := w.taken[vscName := Taken(SourceTree(cfg, w, req.sourceVolumeId), r.value.id in s.pins)])
  }

  function Recorded(cfg: Config, v: Snapshot, vscName: string): SnapshotContent {
    SnapshotContent(vscName, cfg.driver, Some(v.sourceVolumeId), None,
                    Some(SnapshotStatus(Some(v.id), Some(true), None, Some(v.sizeBytes))))
  }

  predicate OursNamed(cfg: Config, v: SnapshotContent, name: string) { v.name == name && v.driver == cfg.driver }

  /** Deletion runs while the object is still listed. */
  ghost function DoDrop(cfg: Config, env: Env, w: World, vscName: string): World {
    if !(exists v :: v in w.vscs && OursNamed(cfg, v, vscName)) then w
    else
      var v :| v in w.vscs && OursNamed(cfg, v, vscName);
      var (s, r) := DeleteSnapshot(cfg, env, w.ipfs, w.pvs, w.vscs, Handle(v));
      if r.Err? then w.(ipfs := s)
      else w.(ipfs := s, vscs := WithoutName(w.vscs, vscName), taken := w.taken - {vscName})
  }

  ghost function DoStage(cfg: Config, env: Env, w: World, id: string, dir: string): World {
    if !Ours(cfg, w.pvs, id) then w
    else
      var (s, out, _) := Stage(env, w.ipfs, Owned(cfg, w.pvs, id).csi.value.attributes, Found(w.stagings, dir));
      w.(ipfs := s, stagings := if out.Some? then w.stagings[dir := out.value] else w.stagings)
  }

  ghost function DoWrite(w: World, dir: string, tree: Tree): World {
    if dir in w.stagings && ValidDir(tree) then w.(stagings := w.stagings[dir := tree]) else w
  }

  /** Whether unstaging the volume now would import anything. */
  ghost predicate WouldImport(env: Env, w: World, id: string) {
    var a := Lookup(w.pvs, env.reply(ListCall, w.ipfs.clock).Success?, id);
    a.Ok? && Get(a.value.attributes, MFS_PATH) != "" && Get(a.value.attributes, READ_ONLY) != "true"
  }

  /** Afterwards the mount helper may or may not have removed the staging directory. */
  ghost function DoUnstage(cfg: Config, env: Env, w: World, id: string, dir: string, cleaned: bool): World {
    if !Ours(cfg, w.pvs, id) then w
    else
      var (s, r) := Unstage(env, w.ipfs, w.pvs, id, Found(w.stagings, dir));
      w.(ipfs := s,
         stagings := if r.Ok? && cleaned then w.stagings - {dir} else w.stagings,
         saved := if !WouldImport(env, w, id) then w.saved
                  else if r.Ok? && dir in w.stagings && UnstageClears(env, w.ipfs, PlaceIn(cfg, w, id))
                  then w.saved[id := w.stagings[dir]]
                  else w.saved - {id})
  }

  /** The place a listed volume records, meant or not. */
  ghost function PlaceIn(cfg: Config, w: World, id: string): Path
    requires Ours(cfg, w.pvs, id)
  {
    Location(Get(Owned(cfg, w.pvs, id).csi.value.attributes, MFS_PATH))
  }

  /** Anything neither pinned nor part of MFS may go. */
  ghost function DoCollect(w: World, keep: set<string>): World {
    w.(ipfs := w.ipfs.(blocks := w.ipfs.blocks * (keep + w.ipfs.pins)))
  }

  /** The handle of a volume is free, and not empty if it is to be this driver's. */
  predicate VolumeFits(cfg: Config, w: World, pv: PersistentVolume) {
    pv.csi.Some? ==> !Listed(w.pvs, pv.csi.value.handle) && (OwnedBy(pv, cfg.driver) ==> pv.csi.value.handle != "")
  }

  /** The snapshot API is installed, the handle is known and the object name free. */
  predicate SnapshotFits(cfg: Config, w: World, vsc: SnapshotContent) {
    cfg.snapshots && Handle(vsc) != "" && !(exists v :: v in w.vscs && v.name == vsc.name)
  }

  /** A statically provisioned volume, of this driver or another, with a handle of its own; any attributes will do. */
  ghost function DoVolumeAppears(cfg: Config, w: World, pv: PersistentVolume): World {
    if !VolumeFits(cfg, w, pv) then w
    else
      w.(pvs := w.pvs + [pv],
         loose := if pv.csi.None? || Get(pv.csi.value.attributes, CID) in w.ipfs.pins then w.loose
                  else w.loose + {pv.csi.value.handle})
  }

  /** A pre-provisioned snapshot, whose handle may stand in the spec only, under an object name of its own. */
  ghost function DoSnapshotAppears(cfg: Config, env: Env, w: World, vsc: SnapshotContent): World {
    if !SnapshotFits(cfg, w, vsc) then w
    else
      w.(vscs := w.vscs + [vsc],
         taken := w.taken[vsc.name := Taken(env.content(Handle(vsc)), Handle(vsc) in w.ipfs.pins)])
  }

  ghost function Do(cfg: Config, env: Env, w: World, step: Step): World {
    match step
    case Create(req, pvName) => DoCreate(cfg, env, w, req, pvName)
    case Delete(id) => DoDelete(cfg, env, w, id)
    case Take(req, vscName) => DoTake(cfg, env, w, req, vscName)
    case Drop(vscName) => DoDrop(cfg, env, w, vscName)
    case StageAt(id, dir) => DoStage(cfg, env, w, id, dir)
    case Write(dir, tree) => DoWrite(w, dir, tree)
    case UnstageAt(id, dir, cleaned) => DoUnstage(cfg, env, w, id, dir, cleaned)
    case CollectGarbage(keep) => DoCollect(w, keep)
    case VolumeAppears(pv) => DoVolumeAppears(cfg, w, pv)
    case SnapshotAppears(vsc) => DoSnapshotAppears(cfg, env, w, vsc)
  }

  ghost function Run(cfg: Config, env: Env, w: World, steps: seq<Step>): World {
    if steps == [] then w else Do(cfg, env, Run(cfg, env, w, steps[..|steps| - 1]), steps[|steps| - 1])
  }

  /** What the surroundings may do: a collection drops what is neither pinned nor kept, and a pod's writes arrive. */
  lemma {:induction false} SurroundingsAct(cfg: Config, env: Env, w: World, keep: set<string>, dir: string, tree: Tree)
    ensures
      forall cid ::
        cid in Do(cfg, env, w, CollectGarbage(keep)).ipfs.blocks <==>
          cid in w.ipfs.blocks && (cid in w.ipfs.pins || cid in keep)
    ensures
      dir in w.stagings && ValidDir(tree) ==>
        Do(cfg, env, w, Write(dir, tree)).stagings == w.stagings[dir := tree]
  {
  }

  // ------------------------------------------------------------ the shape of reachable worlds

  ghost predicate Sound(cfg: Config, env: Env, w: World) {
    && ValidDir(w.ipfs.mfs) && w.ipfs.pins <= w.ipfs.blocks
    && SoundVolumes(cfg, w.pvs)
    && SoundSnapshots(cfg, env, w.vscs, w.taken)
    && (forall dir :: dir in w.stagings ==> ValidDir(w.stagings[dir]))
  }

  ghost predicate SoundVolumes(cfg: Config, pvs: seq<PersistentVolume>) {
    && UniqueHandles(pvs)
    && (forall pv :: pv in pvs && OwnedBy(pv, cfg.driver) ==> pv.csi.value.handle != "")
  }

  ghost predicate DistinctNames(vscs: seq<SnapshotContent>) {
    forall i, j :: 0 <= i < j < |vscs| ==> vscs[i].name != vscs[j].name
  }

  ghost predicate SoundSnapshots(cfg: Config, env: Env, vscs: seq<SnapshotContent>, taken: map<string, Taken>) {
    && DistinctNames(vscs)
    && (forall v :: v in vscs && v.driver == cfg.driver ==> SoundSnapshot(cfg, env, v, taken))
  }

  /** A listed snapshot's handle stands for the tree it was taken of. */
  ghost predicate SoundSnapshot(cfg: Config, env: Env, v: SnapshotContent, taken: map<string, Taken>) {
    cfg.snapshots && v.name in taken && Handle(v) != "" && env.content(Handle(v)) == taken[v.name].tree
  }

  /** The start: nothing of this driver yet; other drivers' objects and other MFS content may be there. */
  ghost predicate Initial(cfg: Config, w: World) {
    && ValidDir(w.ipfs.mfs) && w.ipfs.pins <= w.ipfs.blocks
    && UniqueHandles(w.pvs) && (forall pv :: pv in w.pvs ==> !OwnedBy(pv, cfg.driver))
    && DistinctNames(w.vscs)
    && (forall v :: v in w.vscs ==> v.driver != cfg.driver)
    && w.stagings == map[] && w.saved == map[] && w.taken == map[] && w.loose == {}
  }

  lemma {:induction false} UniqueWithout(pvs: seq<PersistentVolume>, id: string)
    requires UniqueHandles(pvs)
    ensures UniqueHandles(WithoutHandle(pvs, id))
  {
    if pvs != [] {
      UniqueWithout(pvs[1..], id);
      var rest := WithoutHandle(pvs[1..], id);
      if !HasHandle(pvs[0], id) {
        var all := [pvs[0]] + rest;
        forall i, j | 0 <= i < j < |all| && all[i].csi.Some? && all[j].csi.Some?
          ensures all[i].csi.value.handle != all[j].csi.value.handle
        {
          if i == 0 {
            assert all[j] in rest && all[j] in pvs[1..];
            var k :| 1 <= k < |pvs| && pvs[k] == all[j];
          }
        }
        assert WithoutHandle(pvs, id) == all;
      } else {
        assert WithoutHandle(pvs, id) == [] + rest == rest;
      }
    }
  }

  lemma {:induction false} DistinctWithout(vscs: seq<SnapshotContent>, name: string)
    requires DistinctNames(vscs)
    ensures DistinctNames(WithoutName(vscs, name))
  {
    if vscs != [] {
      DistinctWithout(vscs[1..], name);
      var rest := WithoutName(vscs[1..], name);
      if vscs[0].name != name {
        forall v | v in rest ensures v.name != vscs[0].name {
          assert v in vscs[1..];
          var k :| 1 <= k < |vscs| && vscs[k] == v;
        }
        DistinctCons(vscs[0], rest);
      } else {
        assert WithoutName(vscs, name) == rest;
      }
    }
  }

  lemma {:induction false} DistinctCons(v: SnapshotContent, rest: seq<SnapshotContent>)
    requires DistinctNames(rest) && forall u :: u in rest ==> u.name != v.name
    ensures DistinctNames([v] + rest)
  {
    var all := [v] + rest;
    forall i, j | 0 <= i < j < |all| ensures all[i].name != all[j].name {
      assert all[j] == rest[j - 1];
    }
  }
}
