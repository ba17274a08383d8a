/** The driver object: every RPC as the sequence of calls it makes, under its lock. */
module DriverService {
  import opened Results
  import opened Counting
  import opened Paths
  import opened Trees
  import opened Ipfs
  import opened Locks
  import opened VolumeStore
  import opened SnapshotStore
  import opened Controller
  import opened NodeService

  class Driver {
    const cfg: Config
    const client: Client
    const volumeLocks: VolumeLocks

    /** What the informers currently show; the driver only reads these. */
    var pvs: seq<PersistentVolume>
    var vscs: seq<SnapshotContent>

    constructor (cfg: Config, client: Client, volumeLocks: VolumeLocks)
      ensures this.cfg == cfg && this.client == client && this.volumeLocks == volumeLocks
      ensures pvs == [] && vscs == []
    {
      this.cfg, this.client, this.volumeLocks := cfg, client, volumeLocks;
      pvs, vscs := [], [];
    }

    // ---------------------------------------------------------- volumes

    /** A busy volume is refused untouched; otherwise the lock is free again afterwards on every path. */
    method CreateVolume(req: CreateVolumeRequest) returns (r: Result<Controller.Volume>)
      modifies client, volumeLocks
      ensures volumeLocks.locks == old(volumeLocks.locks)
      ensures
        if Validate(req).Ok? && VolumeId(req.name) in old(volumeLocks.locks)
        then r == Err(Aborted) && client.st == old(client.st)
        else (client.st, r) == Controller.CreateVolume(cfg, client.env, old(client.st), req)
    {
      var snapshot := Validate(req);
      if snapshot.Err? {
        return Err(snapshot.code);
      }
      var id := VolumeId(req.name);
      var acquired := volumeLocks.TryAcquire(id);
      if !acquired {
        return Err(Aborted);
      }
      r := CreateLocked(req, snapshot.value);
      volumeLocks.Release(id);
    }

    /** The work of a creation, done while its key is held. */
    method CreateLocked(req: CreateVolumeRequest, snapshot: string) returns (r: Result<Controller.Volume>)
      requires Key(Operation.CreateVolume(req.name)) in volumeLocks.locks
      modifies client
      ensures (client.st, r) == Controller.CreateLocked(cfg, client.env, old(client.st), req, snapshot)
    {
      var cid := Get(req.parameters, CID);
      var path := Get(req.parameters, MFS_PATH);
      if cid != "" {
        var found := client.StatCID(cid);
        if found.Err? {
          return Err(Internal);
        }
        if !found.value {
          return Err(NotFound);
        }
        if PinningEnabled(req.parameters) {
          var pinned := client.PinCID(cid);
          if !pinned && !cfg.bestEffort {
            return Err(Internal);
          }
        }
      } else {
        var normalized := RequestedPath(cfg, req);
        if normalized.Err? {
          return Err(InvalidArgument);
        }
        path := normalized.value;
        var made := client.MkdirMFS(path);
        if !made {
          return Err(Internal);
        }
      }
      if snapshot != "" {
        var restored := RestoreSnapshotToMFS(snapshot, path);
        if restored.Err? {
          return Err(restored.code);
        }
      }
      var context := req.parameters;
      context := context[CID := cid];
      context := context[MFS_PATH := path];
      context := context[READ_ONLY := if cid != "" then "true" else "false"];
      r := Ok(Controller.Volume(VolumeId(req.name), RequestedCapacity(req.capacity), context,
                                if snapshot != "" then Some(snapshot) else None));
    }

    method RestoreSnapshotToMFS(snapshot: string, path: string) returns (r: Result<()>)
      modifies client
      ensures (client.st, r) == Restore(client.env, old(client.st), snapshot, path)
    {
      var found := client.StatCID(snapshot);
      if found.Err? {
        return Err(Internal);
      }
      if !found.value {
        return Err(NotFound);
      }
      var made := client.Ask(LocalCall);
      if !made {
        return Err(Internal);
      }
      var dir, got := client.GetCIDContent(snapshot, EMPTY_DIR);
      if !got {
        return Err(Internal);
      }
      var imported := client.ImportToMFS(Some(dir), path);
      r := if imported then Ok(()) else Err(Internal);
    }

    method DeleteVolume(id: string) returns (r: Result<()>)
      modifies client, volumeLocks
      ensures volumeLocks.locks == old(volumeLocks.locks)
      ensures
        if id != "" && id in old(volumeLocks.locks) then r == Err(Aborted) && client.st == old(client.st)
        else (client.st, r) == Controller.DeleteVolume(cfg, client.env, old(client.st), pvs, vscs, id)
    {
      if id == "" {
        return Err(InvalidArgument);
      }
      var acquired := volumeLocks.TryAcquire(id);
      if !acquired {
        return Err(Aborted);
      }
      r := DeleteLocked(id);
      volumeLocks.Release(id);
    }

    /** The work of a deletion, done while its key is held. */
    method DeleteLocked(id: string) returns (r: Result<()>)
      requires id != "" && Key(Operation.DeleteVolume(id)) in volumeLocks.locks
      modifies client
      ensures (client.st, r) == Controller.DeleteVolume(cfg, client.env, old(client.st), pvs, vscs, id)
    {
      var listed := client.Ask(ListCall);
      var attributes := GetVolumeAttributes(pvs, listed, id);
      match attributes {
        case Ok(a) =>
          CleanupVolumeInIPFS(a);
          r := Ok(());
        case Err(code) =>
          r := if code == NotFound then Ok(()) else Err(Internal);
      }
    }

    method CleanupVolumeInIPFS(a: VolumeAttributes)
      modifies client
      ensures client.st == Cleanup(cfg, client.env, old(client.st), pvs, vscs, a)
    {
      var cid, path := Get(a.attributes, CID), Get(a.attributes, MFS_PATH);
      if cid != "" && PinningEnabled(a.attributes) {
        var refs := CidReferenceUsage(cid, a.volumeId, false);
        if refs.Ok? && refs.value.0 == 0 && refs.value.1 == 0 {
          var unpinned := client.UnpinCID(cid);
        }
      }
      if path != "" && Get(a.attributes, READ_ONLY) != "true" {
        var removed := client.RmMFS(path);
      }
    }

    /** Counts what else refers to the CID by looping over both listings. */
    method CidReferenceUsage(cid: string, excluded: string, excludeOne: bool) returns (r: Result<(nat, nat)>)
      requires cid != ""
      modifies client
      ensures (client.st, r) == RefUsage(cfg, client.env, old(client.st), pvs, vscs, cid, excluded, excludeOne)
    {
      var listed := client.Ask(ListCall);
      if !listed {
        return Err(Internal);
      }
      var volumes := ListVolumes(pvs, cfg.driver);
      var volumeRefs := 0;
      for i := 0 to |volumes|
        invariant volumeRefs == CountIf(a => RefersTo(a, cid, excluded), volumes[..i])
      {
        assert volumes[..i + 1][..i] == volumes[..i];
        if RefersTo(volumes[i], cid, excluded) {
          volumeRefs := volumeRefs + 1;
        }
      }
      assert volumes[..|volumes|] == volumes;
      VolumesCounted(pvs, cfg.driver, cid, excluded);

      if !cfg.snapshots {
        return if excludeOne then Err(FailedPrecondition) else Ok((volumeRefs, 0));
      }
      var listedToo := client.Ask(ListCall);
      if !listedToo {
        return Err(Internal);
      }
      var snapshots := ListSnapshots(vscs, cfg.driver, cid, "");
      SnapshotsCounted(vscs, cfg.driver, cid);
      var snapshotRefs := |snapshots|;
      if excludeOne && snapshotRefs > 0 {
        snapshotRefs := snapshotRefs - 1;
      }
      r := Ok((volumeRefs, snapshotRefs));
    }

    // ---------------------------------------------------------- snapshots

    method CreateSnapshot(req: CreateSnapshotRequest) returns (r: Result<Snapshot>)
      modifies client, volumeLocks
      ensures volumeLocks.locks == old(volumeLocks.locks)
      ensures
        if req.name != "" && req.sourceVolumeId != "" && "snapshot-" + req.name in old(volumeLocks.locks)
        then r == Err(Aborted) && client.st == old(client.st)
        else (client.st, r) == Controller.CreateSnapshot(client.env, old(client.st), pvs, req)
    {
      if req.name == "" || req.sourceVolumeId == "" {
        return Err(InvalidArgument);
      }
      var key := "snapshot-" + req.name;
      var acquired := volumeLocks.TryAcquire(key);
      if !acquired {
        return Err(Aborted);
      }
      r := SnapshotLocked(req);
      volumeLocks.Release(key);
    }

    /** The work of taking a snapshot, done while its key is held. */
    method SnapshotLocked(req: CreateSnapshotRequest) returns (r: Result<Snapshot>)
      requires req.name != "" && req.sourceVolumeId != ""
      requires Key(Operation.CreateSnapshot(req.name)) in volumeLocks.locks
      modifies client
      ensures (client.st, r) == Controller.CreateSnapshot(client.env, old(client.st), pvs, req)
    {
      var listed := client.Ask(ListCall);
      var attributes := GetVolumeAttributes(pvs, listed, req.sourceVolumeId);
      if attributes.Err? {
        return Err(if attributes.code == NotFound then NotFound else Internal);
      }
      var a := attributes.value;
      var path := Get(a.attributes, MFS_PATH);
      if path == "" {
        return Err(InvalidArgument);
      }
      var cid := client.ResolveMFSCID(path);
      if cid.None? {
        return Err(Internal);
      }
      var pinned := client.PinCID(cid.value);
      r := Ok(Snapshot(cid.value, req.sourceVolumeId, if a.capacity == 0 then DEFAULT_CAPACITY else a.capacity));
    }

    method DeleteSnapshot(id: string) returns (r: Result<()>)
      modifies client, volumeLocks
      ensures volumeLocks.locks == old(volumeLocks.locks)
      ensures
        if id != "" && "delete-snapshot-" + id in old(volumeLocks.locks)
        then r == Err(Aborted) && client.st == old(client.st)
        else (client.st, r) == Controller.DeleteSnapshot(cfg, client.env, old(client.st), pvs, vscs, id)
    {
      if id == "" {
        return Err(InvalidArgument);
      }
      var key := "delete-snapshot-" + id;
      var acquired := volumeLocks.TryAcquire(key);
      if !acquired {
        return Err(Aborted);
      }
      r := DropLocked(id);
      volumeLocks.Release(key);
    }

    /** The work of deleting a snapshot, done while its key is held. */
    method DropLocked(id: string) returns (r: Result<()>)
      requires id != "" && Key(Operation.DeleteSnapshot(id)) in volumeLocks.locks
      modifies client
      ensures (client.st, r) == Controller.DeleteSnapshot(cfg, client.env, old(client.st), pvs, vscs, id)
    {
      var refs := CidReferenceUsage(id, "", true);
      match refs {
        case Err(code) => r := Err(code);
        case Ok((volumeRefs, snapshotRefs)) =>
          if volumeRefs == 0 && snapshotRefs == 0 {
            var unpinned := client.UnpinCID(id);
          }
          r := Ok(());
      }
    }

    // ---------------------------------------------------------- node

    method FetchContentToPath(context: map<string, string>, dest: Tree) returns (out: Tree, r: Result<()>)
      requires ValidDir(dest)
      modifies client
      ensures (client.st, out, r) == Fetch(client.env, old(client.st), context, dest)
    {
      var cid, path := Get(context, CID), Get(context, MFS_PATH);
      if cid == "" && path == "" {
        return dest, Ok(());
      }
      out := dest;
      match client.env.reply(LocalCall, client.st.clock) {
        case Refused =>
        case Lost => out := Torn(client.env, client.st.clock, EMPTY_DIR, dest);
        case Success => out := EnsureEmptyDirectory(dest);
      }
      var emptied := client.Ask(LocalCall);
      if !emptied {
        return out, Err(Internal);
      }
      var ok;
      if cid != "" {
        out, ok := client.GetCIDContent(cid, out);
      } else {
        out, ok := client.ExportMFS(path, out);
      }
      r := if ok then Ok(()) else Err(Internal);
    }

    method NodeStageVolume(id: string, stagingPath: string, context: map<string, string>, staging: Option<Tree>)
      returns (out: Option<Tree>, r: Result<()>)
      requires staging.Some? ==> ValidDir(staging.value)
      modifies client
      ensures
        if id == "" || stagingPath == ""
        then r == Err(InvalidArgument) && out == staging && client.st == old(client.st)
        else (client.st, out, r) == Stage(client.env, old(client.st), context, staging)
    {
      if id == "" || stagingPath == "" {
        return staging, Err(InvalidArgument);
      }
      var made := client.Ask(LocalCall);
      if !made {
        return staging, Err(Internal);
      }
      var tree;
      tree, r := FetchContentToPath(context, if staging.Some? then staging.value else EMPTY_DIR);
      out := Some(tree);
    }

    method NodeUnstageVolume(id: string, stagingPath: string, staging: Option<Tree>) returns (r: Result<()>)
      modifies client
      ensures
        if id == "" || stagingPath == "" then r == Err(InvalidArgument) && client.st == old(client.st)
        else (client.st, r) == Unstage(client.env, old(client.st), pvs, id, staging)
    {
      if id == "" || stagingPath == "" {
        return Err(InvalidArgument);
      }
      var listed := client.Ask(ListCall);
      var attributes := GetVolumeAttributes(pvs, listed, id);
      var path, readOnly := "", false;
      if attributes.Ok? {
        path := Get(attributes.value.attributes, MFS_PATH);
        readOnly := Get(attributes.value.attributes, READ_ONLY) == "true";
      }
      if !readOnly && path != "" {
        var imported := client.ImportToMFS(staging, path);
        if !imported {
          return Err(Internal);
        }
      }
      r := Ok(());
    }
  }
}
