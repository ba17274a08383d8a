/** What creating a volume guarantees: kinds, pins, confinement, restored content, repetition. */
module Lifecycle {
  import opened Results
  import opened Paths
  import opened Trees
  import opened Ipfs
  import opened VolumeStore
  import opened SnapshotStore
  import opened Controller
  import opened NodeService

  /**
   The shape of every stored volume context: read-only exactly when a CID is recorded,
   otherwise read-write at a normalized path under the MFS root.
   */
  ghost predicate WellFormed(cfg: Config, context: map<string, string>) {
    var path := Get(context, MFS_PATH);
    && (Get(context, READ_ONLY) == "true" <==> Get(context, CID) != "")
    && (Get(context, CID) == "" ==>
          IsAbs(path) && NormalizeMFSPath(path, cfg.mfsRoot) == Ok(path)
          && Location(cfg.mfsRoot) <= Location(path) && Location(path) != [])
  }

  /** The place of a read-write request. */
  function Place(cfg: Config, req: CreateVolumeRequest): Path {
    if RequestedPath(cfg, req).Ok? then Location(RequestedPath(cfg, req).value) else []
  }

  /** The request names an MFS path of its own. */
  predicate Explicit(req: CreateVolumeRequest) {
    "mfspath" in req.parameters && req.parameters["mfspath"] != ""
  }

  /** The place a request asks for: that of its own path, or one made from its name. */
  function Wanted(cfg: Config, req: CreateVolumeRequest): Path {
    if Explicit(req) then Location(req.parameters["mfspath"]) else Location(cfg.mfsRoot + "/" + Sanitize(req.name))
  }

  lemma {:induction false} PlaceIsWanted(cfg: Config, req: CreateVolumeRequest)
    ensures
      RequestedPath(cfg, req).Ok? ==>
        Place(cfg, req) == Location(RequestedPath(cfg, req).value) == Wanted(cfg, req)
  {
    hide Location, Rooted;
    var given := Get(req.parameters, MFS_PATH);
    RootedSamePlace(if given != "" then given else cfg.mfsRoot + "/" + Sanitize(req.name));
  }

  /** Only a path of its own can be refused: one that denotes a place outside the root, or climbs above its start. */
  lemma {:induction false} PathRefused(cfg: Config, req: CreateVolumeRequest)
    requires SafeRoot(cfg.mfsRoot) && req.name != ""
    ensures
      RequestedPath(cfg, req).Err? <==>
        Explicit(req) && (!(Location(cfg.mfsRoot) <= Wanted(cfg, req)) || Climbs(req.parameters["mfspath"]))
  {
    hide Location, NormalizeMFSPath, Climbs;
    if Explicit(req) {
      RefusedExactly(req.parameters["mfspath"], cfg.mfsRoot);
    } else {
      AutoPath(req.name, cfg.mfsRoot);
    }
  }

  /** An accepted path is spelled in full, lies under the root, and denotes the place that was asked for. */
  lemma {:induction false} PathIsConfined(cfg: Config, req: CreateVolumeRequest)
    requires SafeRoot(cfg.mfsRoot) && RequestedPath(cfg, req).Ok?
    ensures
      var path := RequestedPath(cfg, req).value;
      && IsAbs(path) && NormalizeMFSPath(path, cfg.mfsRoot) == Ok(path)
      && Location(cfg.mfsRoot) <= Location(path) && Location(path) != []
      && Location(path) == Wanted(cfg, req)
  {
    var given := Get(req.parameters, MFS_PATH);
    NormalizationConfines(if given != "" then given else cfg.mfsRoot + "/" + Sanitize(req.name), cfg.mfsRoot);
    PlaceIsWanted(cfg, req);
  }

  lemma {:induction false} PathIsAbs(cfg: Config, req: CreateVolumeRequest)
    ensures RequestedPath(cfg, req).Ok? ==> IsAbs(RequestedPath(cfg, req).value)
  {
    hide Clean;
  }

  /** A context made from a request: the three entries the driver writes, and all others as they were. */
  ghost predicate ContextFor(context: map<string, string>, parameters: map<string, string>, path: string) {
    && "cid" in context && "mfspath" in context && "readonly" in context
    && context["cid"] == (if "cid" in parameters then parameters["cid"] else "")
    && context["mfspath"] == path
    && context["readonly"] == (if "cid" in parameters && parameters["cid"] != "" then "true" else "false")
    && forall k :: k != "cid" && k != "mfspath" && k != "readonly" ==>
         (k in context <==> k in parameters) && (k in context ==> context[k] == parameters[k])
  }

  /**
   What a successful creation returns, whatever the root: an identifier from the name, the
   requested capacity and source; and a context that keeps the parameters, records the CID,
   the kind and the path, and has as the place to write the one asked for, or none.
   */
  lemma {:induction false} CreatedVolume(cfg: Config, env: Env, s: State, req: CreateVolumeRequest)
    ensures
      var (_, r) := CreateVolume(cfg, env, s, req);
      var cid := if "cid" in req.parameters then req.parameters["cid"] else "";
      r.Ok? ==>
        && r.value.id == "ipfs-volume-" + Sanitize(req.name)
        && r.value.capacity == RequestedCapacity(req.capacity)
        && r.value.source ==
             (if req.source.Some? && req.source.value.FromSnapshot? then Some(req.source.value.id) else None)
        && ContextFor(r.value.context, req.parameters, Get(r.value.context, MFS_PATH))
        && (cid != "" ==> WriteTarget(r.value.context) == None)
        && (cid == "" ==> WriteTarget(r.value.context) == Some(Wanted(cfg, req)))
        && (cid != "" && "mfspath" in req.parameters ==> r.value.context["mfspath"] == req.parameters["mfspath"])
  {
    hide CreateVolume, NormalizeMFSPath, Location, RequestedPath, VolumeOf, WriteTarget, ContextFor, Wanted;
    CreatedContext(cfg, env, s, req);
    PlaceIsWanted(cfg, req);
    CreatedFrom(cfg, env, s, req);
    var r := CreateVolume(cfg, env, s, req).1;
    if r.Ok? {
      RecordedContext(req, Validate(req).value, Get(r.value.context, MFS_PATH));
      ContextOf(req, Validate(req).value, Get(r.value.context, MFS_PATH));
    }
  }

  /** A volume that is returned was made from the request, the snapshot it names, and some path. */
  lemma {:induction false} CreatedFrom(cfg: Config, env: Env, s: State, req: CreateVolumeRequest)
    ensures
      var (_, r) := CreateVolume(cfg, env, s, req);
      r.Ok? ==>
        && Validate(req).Ok? && r.value == VolumeOf(req, Validate(req).value, Get(r.value.context, MFS_PATH))
        && (Get(req.parameters, CID) != "" ==> Get(r.value.context, MFS_PATH) == Get(req.parameters, MFS_PATH))
  {
    hide VolumeOf, NormalizeMFSPath, Location, Restore;
    var snapshot := Validate(req);
    if snapshot.Ok? {
      var (s1, path) := Prepare(cfg, env, s, req);
      if path.Ok? {
        ContextOf(req, snapshot.value, path.value);
      }
    }
  }

  lemma {:induction false} RecordedContext(req: CreateVolumeRequest, snapshot: string, path: string)
    ensures
      var v := VolumeOf(req, snapshot, path);
      && ContextFor(v.context, req.parameters, path)
      && v.id == "ipfs-volume-" + Sanitize(req.name) && v.capacity == RequestedCapacity(req.capacity)
      && v.source == (if snapshot != "" then Some(snapshot) else None)
  {
    assert CID[0] != MFS_PATH[0] && MFS_PATH[0] != READ_ONLY[0] && CID[0] != READ_ONLY[0];
  }

  /**
   What is stored with a created volume, whatever the root: the CID, the pin decision and all
   other parameters as requested, and as the place to write the one just prepared, or none.
   */
  lemma {:induction false} CreatedContext(cfg: Config, env: Env, s: State, req: CreateVolumeRequest)
    ensures
      var (_, r) := CreateVolume(cfg, env, s, req);
      r.Ok? ==>
        && r.value.id == VolumeId(req.name)
        && Get(r.value.context, CID) == Get(req.parameters, CID)
        && (Get(r.value.context, READ_ONLY) == "true" <==> Get(req.parameters, CID) != "")
        && PinningEnabled(r.value.context) == PinningEnabled(req.parameters)
        && (forall k :: k != CID && k != MFS_PATH && k != READ_ONLY ==>
              Get(r.value.context, k) == Get(req.parameters, k))
        && (Get(req.parameters, CID) == "" ==> RequestedPath(cfg, req) == Ok(Get(r.value.context, MFS_PATH)))
        && WriteTarget(r.value.context) == if Get(req.parameters, CID) == "" then Some(Place(cfg, req)) else None
  {
    hide VolumeOf, NormalizeMFSPath, Location, Restore;
    var snapshot := Validate(req);
    if snapshot.Ok? {
      var (s1, path) := Prepare(cfg, env, s, req);
      if path.Ok? {
        ContextOf(req, snapshot.value, path.value);
        PathIsAbs(cfg, req);
      }
    }
  }

  /** Every created volume is well formed: the kind agrees with the CID, and the path lies under the root. */
  lemma {:induction false} CreatedIsWellFormed(cfg: Config, env: Env, s: State, req: CreateVolumeRequest)
    requires SafeRoot(cfg.mfsRoot)
    ensures
      var (_, r) := CreateVolume(cfg, env, s, req);
      r.Ok? ==> WellFormed(cfg, r.value.context)
  {
    hide CreateVolume, WellFormed, NormalizeMFSPath, Location, RequestedPath;
    CreatedContext(cfg, env, s, req);
    var (_, r) := CreateVolume(cfg, env, s, req);
    if r.Ok? {
      if Get(req.parameters, CID) == "" {
        PathIsConfined(cfg, req);
      }
      FormOf(cfg, r.value.context);
    }
  }

  lemma {:induction false} FormOf(cfg: Config, context: map<string, string>)
    requires Get(context, READ_ONLY) == "true" <==> Get(context, CID) != ""
    requires
      Get(context, CID) == "" ==>
        var path := Get(context, MFS_PATH);
        IsAbs(path) && NormalizeMFSPath(path, cfg.mfsRoot) == Ok(path)
        && Location(cfg.mfsRoot) <= Location(path) && Location(path) != []
    ensures WellFormed(cfg, context)
  {
  }

  lemma {:induction false} ContextOf(req: CreateVolumeRequest, snapshot: string, path: string)
    ensures
      var context := VolumeOf(req, snapshot, path).context;
      && Get(context, CID) == Get(req.parameters, CID)
      && Get(context, MFS_PATH) == path
      && (Get(context, READ_ONLY) == "true" <==> Get(req.parameters, CID) != "")
      && Get(context, PINNING) == Get(req.parameters, PINNING)
      && VolumeOf(req, snapshot, path).id == VolumeId(req.name)
      && (forall k :: k != CID && k != MFS_PATH && k != READ_ONLY ==> Get(context, k) == Get(req.parameters, k))
  {
    assert "true"[0] != "false"[0];
    assert CID[0] != MFS_PATH[0] && MFS_PATH[0] != READ_ONLY[0] && CID[0] != READ_ONLY[0];
    assert PINNING[0] != CID[0] && PINNING[0] != MFS_PATH[0] && PINNING[0] != READ_ONLY[0];
  }

  /** Cleanup of a well-formed volume never both unpins and removes. */
  lemma {:induction false} CleanupDoesOneThing(cfg: Config, env: Env, s: State, pvs: seq<PersistentVolume>,
                                               vscs: seq<SnapshotContent>, a: VolumeAttributes)
    requires WellFormed(cfg, a.attributes)
    ensures
      var s' := Cleanup(cfg, env, s, pvs, vscs, a);
      s'.pins == s.pins || s'.mfs == s.mfs
  {
  }

  // ------------------------------------------------------------ pins

  lemma {:induction false} RestoreKeepsPins(env: Env, s: State, snapshot: string, path: string)
    ensures Restore(env, s, snapshot, path).0.pins == s.pins
  {
    var s1 := Tick(Tick(s));
    var (s3, dir, got) := GetCID(env, s1, snapshot, EMPTY_DIR);
    ImportKeepsPins(env, s3, Some(dir), path);
  }

  lemma {:induction false} ImportKeepsPins(env: Env, s: State, local: Option<Tree>, path: string)
    ensures Import(env, s, local, path).0.pins == s.pins
  {
    hide CopyWalk, Location, CanMkdir;
    var s1 := Rm(env, s, path).0;
    var (s2, made) := Mkdir(env, s1, path);
    if made && local.Some? {
      WalkKeepsPins(env, Tick(s2), local.value, Walk(local.value), Location(path));
    }
  }

  lemma {:induction false} WalkKeepsPins(env: Env, s: State, t: Tree, w: seq<Path>, p: Path)
    requires forall q :: q in w ==> q in t
    ensures CopyWalk(env, s, t, w, p).0.pins == s.pins
    decreases w
  {
    if w != [] {
      var (s1, ok) := CopyNode(env, s, t, w[0], p);
      if ok {
        WalkKeepsPins(env, s1, t, w[1..], p);
      }
    }
  }

  /** What the pin call of a creation, its second call, is answered. */
  function PinReply(env: Env, s: State): Reply { env.reply(PinCall, s.clock + 1) }

  /** A request with a CID that does not say `false` for pinning. */
  predicate AsksForPin(req: CreateVolumeRequest) {
    && "cid" in req.parameters && req.parameters["cid"] != ""
    && ("pinning" in req.parameters ==> req.parameters["pinning"] != "false")
  }

  /** A creation that gets as far as pinning its CID. */
  predicate ReachesPin(env: Env, s: State, req: CreateVolumeRequest) {
    var cid := Get(req.parameters, CID);
    && Validate(req).Ok? && cid != "" && PinningEnabled(req.parameters)
    && env.reply(StatCall, s.clock).Success? && Reachable(env, s, cid)
  }

  /**
   A creation adds the pin of its own CID exactly if it gets as far as pinning and the call
   takes effect, and no other. One with pinning succeeds exactly if it gets that far and the
   call works or need not; so success under the strict policy means pinned, and failure means
   nothing was added, unless the pin call took effect and still reported an error. Pinning is
   on unless the parameter says `false`.
   */
  lemma {:induction false} CreatePins(cfg: Config, env: Env, s: State, req: CreateVolumeRequest)
    ensures
      var (s', r) := CreateVolume(cfg, env, s, req);
      var cid := Get(req.parameters, CID);
      var (pinning, reached) := (cid != "" && PinningEnabled(req.parameters), ReachesPin(env, s, req));
      && s'.pins == (if reached && !PinReply(env, s).Refused? then s.pins + {cid} else s.pins)
      && (pinning ==> (r.Ok? <==> reached && (PinReply(env, s).Success? || cfg.bestEffort)))
      && (reached ==> s'.clock == s.clock + 2)
      && ("pinning" in req.parameters && req.parameters["pinning"] == "false" ==> s'.pins == s.pins)
      && (AsksForPin(req) && !cfg.bestEffort && r.Ok? ==> req.parameters["cid"] in s'.pins)
  {
    hide Restore, VolumeOf, NormalizeMFSPath, Location, Held;
    var snapshot := Validate(req);
    if snapshot.Ok? {
      var (s1, path) := Prepare(cfg, env, s, req);
      if path.Ok? && snapshot.value != "" {
        RestoreKeepsPins(env, s1, snapshot.value, path.value);
      }
    }
  }

  // ------------------------------------------------------------ restored content

  /** The state in which a restore starts to import: three calls later, with the content fetched. */
  ghost function Fetched(s: State, snapshot: string): State {
    s.(clock := s.clock + 3, blocks := s.blocks + {snapshot})
  }

  ghost predicate GaveUp(s: State, s': State) {
    s'.mfs == s.mfs && OnlyMfs(s, s')
  }

  /** The content can be had both when it is looked up and, two calls later, when it is downloaded. */
  predicate Served(env: Env, s: State, cid: string) {
    Held(env, s, cid) || (env.remote(cid, s.clock) && env.remote(cid, s.clock + 2))
  }

  /** The lookup, the temporary directory and the download of a restore, its first three calls, work. */
  predicate RestoreReaches(env: Env, s: State) {
    && env.reply(StatCall, s.clock).Success? && env.reply(LocalCall, s.clock + 1).Success?
    && env.reply(GetCall, s.clock + 2).Success?
  }

  /**
   A restore comes down to importing the snapshot's content exactly if its first three calls
   work and the content is served; else it gives up with MFS untouched.
   */
  lemma {:induction false} RestoreStages(env: Env, s: State, snapshot: string, path: string)
    requires Lawful(env)
    ensures
      var (s', r) := Restore(env, s, snapshot, path);
      var (s4, imported) := Import(env, Fetched(s, snapshot), Some(Materialized(env.content(snapshot))), path);
      if RestoreReaches(env, s) && Served(env, s, snapshot) then s' == s4 && r.Ok? == imported
      else r.Err? && GaveUp(s, s') && !(NoFailure(env, s.clock, s'.clock) && Served(env, s, snapshot))
  {
    hide GetCID, Import;
    var s2 := Tick(Tick(s));
    assert Held(env, s2, snapshot) <==> Held(env, s, snapshot);
    DownloadResult(env, s2, snapshot);
  }

  /**
   Restoring lays the snapshot's content over what the removal left at the path, touches
   nothing elsewhere, and, when no call fails, succeeds if the content is served and
   the directory can be made again; it never succeeds without the content.
   */
  lemma {:induction false} RestoreResult(env: Env, s: State, snapshot: string, path: string)
    requires Lawful(env) && ValidDir(s.mfs)
    ensures
      var (s', r) := Restore(env, s, snapshot, path);
      var (p, t) := (Location(path), Materialized(env.content(snapshot)));
      && Kept(s, s', p)
      && (r.Ok? ==> Served(env, s, snapshot) && snapshot in s'.blocks)
      && (r.Ok? ==> s'.mfs == Overlay(RestoreBase(env, s, p), p, t))
      && (NoFailure(env, s.clock, s'.clock) && Served(env, s, snapshot) && IsAbs(path) && Free(s.mfs, p) ==> r.Ok?)
  {
    hide Restore, Import, Materialized, Overlay, Free;
    RestoreStages(env, s, snapshot, path);
    WriteIntoEmpty(env.content(snapshot));
    ImportResult(env, Fetched(s, snapshot), Materialized(env.content(snapshot)), path);
  }

  /** The removal a restore makes, its fourth call, takes effect. */
  predicate RestoreClears(env: Env, s: State, p: Path) { Clears(env, s.clock + 3, p) }

  /** The same in a creation, which makes the directory first. */
  predicate CreateClears(env: Env, s: State, p: Path) { Clears(env, s.clock + 4, p) }

  /** What stands at the target when the restored content is laid over it. */
  ghost function RestoreBase(env: Env, s: State, p: Path): Tree {
    if RestoreClears(env, s, p) then Outside(s.mfs, p) else s.mfs
  }

  /** A read-write creation: the directory is made, then a snapshot restored into it if one was named. */
  lemma {:induction false} CreateStages(cfg: Config, env: Env, s: State, req: CreateVolumeRequest)
    requires Get(req.parameters, CID) == "" && RequestedPath(cfg, req).Ok? && Validate(req).Ok?
    ensures
      var path, snapshot := RequestedPath(cfg, req).value, Validate(req).value;
      var (s', r) := CreateVolume(cfg, env, s, req);
      var (s1, made) := MkdirAt(env, s, Location(path));
      var (s2, restored) := Restore(env, s1, snapshot, path);
      IsAbs(path) ==>
        && (r.Ok? ==> made && r.value == VolumeOf(req, snapshot, path))
        && (!made || snapshot == "" ==> s' == s1 && r.Ok? == made)
        && (made && snapshot != "" ==> s' == s2 && r.Ok? == restored.Ok?)
  {
  }

  /** How a read-write creation changes MFS. */
  lemma {:induction false} CreateMfs(cfg: Config, env: Env, s: State, req: CreateVolumeRequest)
    requires Lawful(env) && ValidDir(s.mfs)
    requires Get(req.parameters, CID) == "" && RequestedPath(cfg, req).Ok? && Validate(req).Ok?
    ensures
      var (s', r) := CreateVolume(cfg, env, s, req);
      var p := Location(RequestedPath(cfg, req).value);
      && Kept(s, s', p)
      && (r.Ok? ==> IsDir(s'.mfs, p))
  {
    var path, snapshot := RequestedPath(cfg, req).value, Validate(req).value;
    var p := Location(path);
    PathIsAbs(cfg, req);
    CreateStages(cfg, env, s, req);
    MkdirResult(env, s, p);
    var (s1, made) := MkdirAt(env, s, p);
    if made && snapshot != "" {
      RestoreResult(env, s1, snapshot, path);
      KeptAfterMkdir(s, s1, Restore(env, s1, snapshot, path).0, p);
      WriteIntoEmpty(env.content(snapshot));
      DirOfOverlay(RestoreBase(env, s1, p), p, Materialized(env.content(snapshot)));
    }
  }

  lemma {:induction false} DirOfOverlay(fs: Tree, p: Path, t: Tree)
    requires IsDir(t, [])
    ensures IsDir(Overlay(fs, p, t), p)
  {
    assert p[|p|..] == [];
  }

  lemma {:induction false} KeptAfterMkdir(s: State, s1: State, s2: State, p: Path)
    requires OnlyMfs(s, s1) && CanMkdir(s.mfs, p) && s1.mfs == s.mfs + Chain(p) && Kept(s1, s2, p)
    ensures Kept(s, s2, p)
  {
    assert s.mfs + Chain(p) + Chain(p) == s.mfs + Chain(p);
  }

  /** A creation of the other kinds leaves MFS alone. */
  lemma {:induction false} CreateLeavesMfs(cfg: Config, env: Env, s: State, req: CreateVolumeRequest)
    requires Get(req.parameters, CID) != "" || RequestedPath(cfg, req).Err?
    ensures
      var (s', _) := CreateVolume(cfg, env, s, req);
      s'.mfs == s.mfs && s.blocks <= s'.blocks && s.clock <= s'.clock
  {
  }

  /**
   Nothing is left at the place of a new volume that the tree restored into it lacks: the
   removal takes effect, or there was nothing else.
   */
  ghost predicate NothingStale(env: Env, s: State, p: Path, t: Tree) {
    CreateClears(env, s, p) || Subtree(s.mfs, p).Keys <= t.Keys
  }

  /** When a restored volume shows exactly the snapshot's content: exactly if nothing stale is left. */
  lemma {:induction false} RestoredContent(cfg: Config, env: Env, s: State, req: CreateVolumeRequest, snapshot: string)
    requires Lawful(env) && ValidDir(s.mfs)
    requires req.source == Some(FromSnapshot(snapshot)) && CreateVolume(cfg, env, s, req).1.Ok?
    ensures
      var (p, t) := (Place(cfg, req), Materialized(env.content(snapshot)));
      Subtree(CreateVolume(cfg, env, s, req).0.mfs, p) == t <==> NothingStale(env, s, p, t)
  {
    hide Restore, Materialized, NormalizeMFSPath, Location, VolumeOf, Subtree;
    var path := RequestedPath(cfg, req).value;
    PathIsAbs(cfg, req);
    CreateStages(cfg, env, s, req);
    MkdirResult(env, s, Location(path));
    var (s1, _) := MkdirAt(env, s, Location(path));
    ContentIsDir(env, snapshot);
    KeysAfterMkdir(s.mfs, Location(path), Materialized(env.content(snapshot)));
    RestoreMirrors(env, s1, snapshot, path);
  }

  /** The same for a restore by itself; in any case all of the content is there. */
  lemma {:induction false} RestoreMirrors(env: Env, s: State, snapshot: string, path: string)
    requires Lawful(env) && ValidDir(s.mfs)
    ensures
      var (s', r) := Restore(env, s, snapshot, path);
      var (p, t) := (Location(path), Materialized(env.content(snapshot)));
      r.Ok? ==>
        && LiesIn(t, Subtree(s'.mfs, p))
        && (Subtree(s'.mfs, p) == t <==> RestoreClears(env, s, p) || Subtree(s.mfs, p).Keys <= t.Keys)
  {
    hide *;
    var (p, t) := (Location(path), Materialized(env.content(snapshot)));
    RestoreResult(env, s, snapshot, path);
    ContentIsDir(env, snapshot);
    OverBase(env, s, p, t);
  }

  lemma {:induction false} OverBase(env: Env, s: State, p: Path, t: Tree)
    requires IsDir(t, [])
    ensures
      var shown := Subtree(Overlay(RestoreBase(env, s, p), p, t), p);
      LiesIn(t, shown) && (shown == t <==> RestoreClears(env, s, p) || Subtree(s.mfs, p).Keys <= t.Keys)
  {
    hide Overlay, Subtree, Outside;
    SubtreeOfOverlay(RestoreBase(env, s, p), p, t);
    NothingAt(s.mfs, p);
    UnionIsRight(Subtree(RestoreBase(env, s, p), p), t);
  }

  lemma {:induction false} ContentIsDir(env: Env, cid: string)
    requires Lawful(env)
    ensures ValidDir(Materialized(env.content(cid))) && IsDir(Materialized(env.content(cid)), [])
  {
    WriteIntoEmpty(env.content(cid));
  }

  lemma {:induction false} KeysAfterMkdir(fs: Tree, p: Path, t: Tree)
    requires [] in t
    ensures Subtree(fs + Chain(p), p).Keys <= t.Keys <==> Subtree(fs, p).Keys <= t.Keys
  {
    forall q ensures q in Subtree(fs + Chain(p), p) <==> q in Subtree(fs, p) || q == [] {
      assert p + q <= p <==> q == [];
    }
  }

  // ------------------------------------------------------------ outcome

  /** What a request must look like: named, and from a snapshot only without a CID. */
  predicate Acceptable(req: CreateVolumeRequest) {
    && req.name != ""
    && (req.source.None?
        || (req.source.value.FromSnapshot? && req.source.value.id != "" && Get(req.parameters, CID) == ""))
  }

  /** The content a creation needs, as it finds it when it starts. */
  ghost predicate Possible(cfg: Config, env: Env, s: State, req: CreateVolumeRequest) {
    var cid := Get(req.parameters, CID);
    if cid != "" then Reachable(env, s, cid)
    else
      && !Misplaced(cfg, req)
      && var p := Wanted(cfg, req);
         && CanMkdir(s.mfs, p)
         && (req.source.Some? && req.source.value.FromSnapshot? ==>
               Served(env, Tick(s).(mfs := s.mfs + Chain(p)), req.source.value.id))
  }

  /** A read-write request with a path of its own that denotes a place outside the root, or climbs above its start. */
  predicate Misplaced(cfg: Config, req: CreateVolumeRequest) {
    && ("cid" in req.parameters ==> req.parameters["cid"] == "") && Explicit(req)
    && (!(Location(cfg.mfsRoot) <= Location(req.parameters["mfspath"])) || Climbs(req.parameters["mfspath"]))
  }

  /**
   The outcome of a creation. Whatever fails, an invalid argument is reported exactly for
   an unacceptable request or a path outside the root; and when no call fails, success
   exactly for an acceptable request whose CID can be reached, or whose directory can be
   made and whose snapshot, if it names one, is served.
   */
  lemma {:induction false} CreateOutcome(cfg: Config, env: Env, s: State, req: CreateVolumeRequest)
    requires Lawful(env) && ValidDir(s.mfs) && SafeRoot(cfg.mfsRoot)
    ensures
      var (s', r) := CreateVolume(cfg, env, s, req);
      && (r == Err(InvalidArgument) <==> !Acceptable(req) || Misplaced(cfg, req))
      && (NoFailure(env, s.clock, s'.clock) ==> (r.Ok? <==> Acceptable(req) && Possible(cfg, env, s, req)))
  {
    hide NormalizeMFSPath, Location, VolumeOf, CanMkdir, CreateVolume, Climbs, RequestedPath, SafeRoot;
    RequestOutcome(cfg, env, s, req);
    if req.name != "" {
      PathRefused(cfg, req);
    }
    if Acceptable(req) && Get(req.parameters, CID) == "" && RequestedPath(cfg, req).Ok? {
      MfsOutcome(cfg, env, s, req);
    }
  }

  lemma {:induction false} RequestOutcome(cfg: Config, env: Env, s: State, req: CreateVolumeRequest)
    ensures
      var (s', r) := CreateVolume(cfg, env, s, req);
      var cid := Get(req.parameters, CID);
      && (Validate(req).Ok? <==> Acceptable(req))
      && (r == Err(InvalidArgument) <==> !Acceptable(req) || (cid == "" && RequestedPath(cfg, req).Err?))
      && (r.Ok? ==> Acceptable(req))
      && (cid != "" && NoFailure(env, s.clock, s'.clock) && Acceptable(req) ==> (r.Ok? <==> Reachable(env, s, cid)))
  {
    hide RequestedPath, GetCID, Import, VolumeOf, Reachable, Mkdir;
  }

  lemma {:induction false} MfsOutcome(cfg: Config, env: Env, s: State, req: CreateVolumeRequest)
    requires Lawful(env) && ValidDir(s.mfs) && SafeRoot(cfg.mfsRoot)
    requires Acceptable(req) && Get(req.parameters, CID) == "" && RequestedPath(cfg, req).Ok?
    ensures
      var (s', r) := CreateVolume(cfg, env, s, req);
      NoFailure(env, s.clock, s'.clock) ==> (r.Ok? <==> Possible(cfg, env, s, req))
  {
    hide Restore, Materialized, RequestedPath, Location, VolumeOf, Overlay, CanMkdir, CreateVolume, Served, Climbs;
    var path, snapshot := RequestedPath(cfg, req).value, Validate(req).value;
    var p := Location(path);
    PathIsConfined(cfg, req);
    PathRefused(cfg, req);
    CreateStages(cfg, env, s, req);
    MkdirResult(env, s, p);
    var (s1, made) := MkdirAt(env, s, p);
    if made && snapshot != "" {
      assert s1 == Tick(s).(mfs := s.mfs + Chain(p));
      RestoreResult(env, s1, snapshot, path);
      MakeableAgain(s1.mfs, p);
    }
  }

  /** What other errors a creation reports: not found exactly for content that a working lookup misses. */
  lemma {:induction false} CreateErrors(cfg: Config, env: Env, s: State, req: CreateVolumeRequest)
    requires Acceptable(req)
    ensures
      var r := CreateVolume(cfg, env, s, req).1;
      var cid := Get(req.parameters, CID);
      && (r.Err? ==> r in {Err(InvalidArgument), Err(NotFound), Err(Internal)})
      && (cid != "" ==> (r == Err(NotFound) <==> env.reply(StatCall, s.clock).Success? && !Reachable(env, s, cid)))
      && (cid == "" ==>
            (r == Err(NotFound) <==>
               && RequestedPath(cfg, req).Ok? && req.source.Some?
               && var (s1, made) := MkdirAt(env, s, Place(cfg, req));
                  made && env.reply(StatCall, s.clock + 1).Success? && !Reachable(env, s1, req.source.value.id)))
  {
    hide RequestedPath, GetCID, Import, VolumeOf, Reachable, MkdirAt;
    PathIsAbs(cfg, req);
    MkdirTicks(env, s, Place(cfg, req));
  }

  lemma {:induction false} MkdirTicks(env: Env, s: State, p: Path)
    ensures MkdirAt(env, s, p).0.clock == s.clock + 1
  {
  }

  // ------------------------------------------------------------ repetition

  /** What a request with a snapshot restores. */
  function Restored(env: Env, req: CreateVolumeRequest): Tree
    requires Validate(req).Ok?
  {
    Materialized(env.content(Validate(req).value))
  }

  /** The CID is still there; a snapshot is not to be restored into the MFS root itself, which cannot be removed. */
  predicate CanRepeat(cfg: Config, env: Env, s: State, req: CreateVolumeRequest) {
    var cid := Get(req.parameters, CID);
    if cid != "" then Reachable(env, s, cid) else req.source.None? || Place(cfg, req) != []
  }

  /** The first four calls of a creation from a snapshot work, so that it gets as far as the import. */
  predicate CreateReaches(env: Env, s: State) {
    env.reply(MkdirCall, s.clock).Success? && RestoreReaches(env, Tick(s))
  }

  /** The directory a creation from a snapshot makes anew, its sixth call, is made. */
  predicate CreateRemakes(env: Env, s: State) { !env.reply(MkdirCall, s.clock + 5).Refused? }

  /** What every restore leaves, failing ones included. */
  lemma {:induction false} RestoreLeaves(env: Env, s: State, snapshot: string, path: string) returns (m: nat)
    requires Lawful(env) && ValidDir(s.mfs) && IsAbs(path) && IsDir(s.mfs, Location(path))
    ensures m <= |Walk(Materialized(env.content(snapshot)))|
    ensures
      var (p, t) := (Location(path), Materialized(env.content(snapshot)));
      var (cleared, remade) := (RestoreClears(env, s, p), !env.reply(MkdirCall, s.clock + 4).Refused?);
      var (s', r) := Restore(env, s, snapshot, path);
      && s'.mfs == (if RestoreReaches(env, s) && Served(env, s, snapshot)
                    then Landed(s.mfs, p, cleared, remade, Arrived(t, m)) else s.mfs)
      && (r.Ok? ==> m == |Walk(t)|)
      && (cleared && remade ==> m == Reached(env, s.clock + 4, t))
  {
    hide Restore, Import, Materialized, Location, Landed, Arrived, CanMkdir, ValidTree, Reached, Walk, Served, Remakes,
         RestoreReaches;
    RestoreStages(env, s, snapshot, path);
    ContentIsDir(env, snapshot);
    var t := Materialized(env.content(snapshot));
    Remakeable(env, Fetched(s, snapshot), Location(path));
    m := ImportLeaves(env, Fetched(s, snapshot), Some(t), path);
  }

  /**
   What a creation does to a directory that stands at its place already, whatever it reports.
   Without a snapshot nothing. With one, it replaces the tree by what it got done of the
   restored content, as an unstage does with a staging directory, once its first four calls
   have worked and the content is served; so the old tree survives under the same condition.
   */
  lemma {:induction false} CreateKeepsExactly(cfg: Config, env: Env, s: State, req: CreateVolumeRequest)
    returns (m: nat)
    requires Lawful(env) && ValidDir(s.mfs) && Get(req.parameters, CID) == "" && Validate(req).Ok?
    requires RequestedPath(cfg, req).Ok? && IsDir(s.mfs, Place(cfg, req))
    ensures m <= |Walk(Restored(env, req))|
    ensures
      var p := Place(cfg, req);
      var (tree, done) := (Subtree(s.mfs, p), Arrived(Restored(env, req), m));
      var (cleared, remade) := (CreateClears(env, s, p), CreateRemakes(env, s));
      var (s', r) := CreateVolume(cfg, env, s, req);
      if req.source.None? || !CreateReaches(env, s) || !Served(env, Tick(s), Validate(req).value)
      then s'.mfs == s.mfs && (r.Ok? ==> req.source.None?)
      else
        && s'.mfs == Landed(s.mfs, p, cleared, remade, done)
        && (s'.mfs == s.mfs <==> if !remade then !cleared else if cleared then done == tree else LiesIn(done, tree))
        && (cleared && remade ==> m == Reached(env, s.clock + 5, Restored(env, req)))
        && (r.Ok? ==> remade && m == |Walk(Restored(env, req))|)
  {
    hide Restore, Materialized, NormalizeMFSPath, Location, VolumeOf, Landed, ValidTree, CanMkdir, Subtree, LiesIn,
         Arrived, Reached, Walk, RestoreReaches, Served;
    m := 0;
    var path, snapshot := RequestedPath(cfg, req).value, Validate(req).value;
    var p := Location(path);
    PathIsAbs(cfg, req);
    MkdirAgain(s.mfs, p);
    MkdirResult(env, s, p);
    CreateStages(cfg, env, s, req);
    var (s1, made) := MkdirAt(env, s, p);
    assert s1 == Tick(s);
    if snapshot != "" && made {
      m := RestoreLeaves(env, s1, snapshot, path);
      ContentIsDir(env, snapshot);
      ArrivedPart(Materialized(env.content(snapshot)), m);
      LandedKeeps(s.mfs, p, CreateClears(env, s, p), CreateRemakes(env, s), Arrived(Restored(env, req), m));
      RestoreServed(env, s1, snapshot, path);
      RestoreNeedsMkdir(env, s1, snapshot, path);
    }
  }

  lemma {:induction false} RestoreServed(env: Env, s: State, snapshot: string, path: string)
    requires Lawful(env)
    ensures Restore(env, s, snapshot, path).1.Ok? ==> RestoreReaches(env, s) && Served(env, s, snapshot)
  {
    hide Restore, Import, Materialized, Held;
    RestoreStages(env, s, snapshot, path);
  }

  lemma {:induction false} ImportNeedsMkdir(env: Env, s: State, local: Option<Tree>, path: string)
    ensures Import(env, s, local, path).1 ==> env.reply(MkdirCall, s.clock + 1).Success?
  {
    hide CopyWalk, Location, CanMkdir;
  }

  /**
   Repeating a successful request, whatever the repetition reports. The volume returned is
   the same whenever the repetition succeeds, and it does when none of its calls fails and
   the content is still there. Pins are unchanged exactly if the repetition does not get as
   far as pinning, the CID was pinned already, or the call is refused. MFS is unchanged
   exactly if there is no snapshot to restore, the repetition does not get as far as the
   import, the second removal takes no effect, or the directory is made again, all of the
   content gets into it, and the first time left nothing stale.
   */
  lemma {:induction false} CreateVolumeRepeats(cfg: Config, env: Env, s: State, req: CreateVolumeRequest)
    returns (m: nat)
    requires Lawful(env) && ValidDir(s.mfs) && CreateVolume(cfg, env, s, req).1.Ok?
    ensures Validate(req).Ok? && m <= |Walk(Restored(env, req))|
    ensures
      var (cid, p, t) := (Get(req.parameters, CID), Place(cfg, req), Restored(env, req));
      var (s1, r1) := CreateVolume(cfg, env, s, req);
      var (s2, r2) := CreateVolume(cfg, env, s1, req);
      && (r2.Ok? ==> r2 == r1)
      && (s2.pins == s1.pins <==> !ReachesPin(env, s1, req) || cid in s1.pins || PinReply(env, s1).Refused?)
      && RepeatedTree(env, s, s1, s2, p, t, req.source.Some?, m)
      && (r2.Ok? && req.source.Some? ==> m == |Walk(t)|)
      && (NoFailure(env, s1.clock, s2.clock) && CanRepeat(cfg, env, s1, req) ==> r2.Ok?)
  {
    hide Restored, CreateClears, Place, Reachable, RepeatedTree;
    m := 0;
    var (s1, r1) := CreateVolume(cfg, env, s, req);
    if Get(req.parameters, CID) == "" {
      hide CreateVolume;
      CreatePins(cfg, env, s1, req);
      m := RepeatedMfs(cfg, env, s, req);
    } else {
      RepeatedCid(cfg, env, s, req);
      TreeUntouched(env, s, s1, CreateVolume(cfg, env, s1, req).0, Place(cfg, req), Restored(env, req));
    }
  }

  /** What a repetition leaves in MFS, and exactly when that is what was there. */
  ghost predicate RepeatedTree(env: Env, s: State, s1: State, s2: State, p: Path, t: Tree, restores: bool, m: nat)
    requires m <= |Walk(t)|
  {
    if !restores || !CreateReaches(env, s1) then s2.mfs == s1.mfs
    else
      var (cleared, remade) := (CreateClears(env, s1, p), CreateRemakes(env, s1));
      && s2.mfs == Landed(s1.mfs, p, cleared, remade, Arrived(t, m))
      && (cleared && remade ==> m == Reached(env, s1.clock + 5, t))
      && (s2.mfs == s1.mfs <==> !cleared || (remade && Arrived(t, m) == t && NothingStale(env, s, p, t)))
  }

  lemma {:induction false} TreeUntouched(env: Env, s: State, s1: State, s2: State, p: Path, t: Tree)
    requires s2.mfs == s1.mfs
    ensures RepeatedTree(env, s, s1, s2, p, t, false, 0)
  {
  }

  lemma {:induction false} RepeatedCid(cfg: Config, env: Env, s: State, req: CreateVolumeRequest)
    requires CreateVolume(cfg, env, s, req).1.Ok? && Get(req.parameters, CID) != ""
    ensures
      var cid := Get(req.parameters, CID);
      var (s1, r1) := CreateVolume(cfg, env, s, req);
      var (s2, r2) := CreateVolume(cfg, env, s1, req);
      && Validate(req).Ok? && req.source.None?
      && (r2.Ok? ==> r2 == r1)
      && (s2.pins == s1.pins <==> !ReachesPin(env, s1, req) || cid in s1.pins || PinReply(env, s1).Refused?)
      && s2.mfs == s1.mfs
      && (NoFailure(env, s1.clock, s2.clock) && Reachable(env, s1, cid) ==> r2.Ok?)
  {
    hide Held, RequestedPath;
    var s1 := CreateVolume(cfg, env, s, req).0;
    CreatePins(cfg, env, s1, req);
    CreateLeavesMfs(cfg, env, s1, req);
  }

  lemma {:induction false} RepeatedMfs(cfg: Config, env: Env, s: State, req: CreateVolumeRequest) returns (m: nat)
    requires Lawful(env) && ValidDir(s.mfs)
    requires CreateVolume(cfg, env, s, req).1.Ok? && Get(req.parameters, CID) == ""
    ensures Validate(req).Ok? && m <= |Walk(Restored(env, req))|
    ensures
      var (p, t) := (Place(cfg, req), Restored(env, req));
      var (s1, r1) := CreateVolume(cfg, env, s, req);
      var (s2, r2) := CreateVolume(cfg, env, s1, req);
      && (r2.Ok? ==> r2 == r1)
      && RepeatedTree(env, s, s1, s2, p, t, req.source.Some?, m)
      && (r2.Ok? && req.source.Some? ==> m == |Walk(t)|)
      && (NoFailure(env, s1.clock, s2.clock) && (req.source.None? || p != []) ==> r2.Ok?)
  {
    hide CreateVolume, Materialized, RequestedPath, Place, Landed, ValidTree, Subtree, NothingStale, LiesIn, Arrived,
         Reached, Walk, CreateReaches, CreateClears, CreateRemakes, RepeatedTree, Served;
    FirstShows(cfg, env, s, req);
    RepeatSucceeds(cfg, env, s, req);
    var s1 := CreateVolume(cfg, env, s, req).0;
    m := CreateKeepsExactly(cfg, env, s1, req);
    var s2 := CreateVolume(cfg, env, s1, req).0;
    TreeRepeated(env, s, s1, s2, Place(cfg, req), Restored(env, req), req.source.Some?, m);
  }

  /** What a first creation leaves for its repetition to find. */
  lemma {:induction false} FirstShows(cfg: Config, env: Env, s: State, req: CreateVolumeRequest)
    requires Lawful(env) && ValidDir(s.mfs)
    requires CreateVolume(cfg, env, s, req).1.Ok? && Get(req.parameters, CID) == ""
    ensures Validate(req).Ok? && RequestedPath(cfg, req).Ok? && IsDir(Restored(env, req), [])
    ensures
      var (p, t, s1) := (Place(cfg, req), Restored(env, req), CreateVolume(cfg, env, s, req).0);
      && ValidDir(s1.mfs) && IsDir(s1.mfs, p)
      && (req.source.Some? ==>
            && Served(env, Tick(s1), Validate(req).value) && LiesIn(t, Subtree(s1.mfs, p))
            && (Subtree(s1.mfs, p) == t <==> NothingStale(env, s, p, t)))
  {
    hide Restore, Materialized, NormalizeMFSPath, Location, VolumeOf, ValidTree, CanMkdir, Subtree, Outside,
         NothingStale, LiesIn, RestoreReaches;
    var path, snapshot := RequestedPath(cfg, req).value, Validate(req).value;
    PathIsAbs(cfg, req);
    CreateMfs(cfg, env, s, req);
    KeptIsValid(s, CreateVolume(cfg, env, s, req).0, Location(path));
    CreateStages(cfg, env, s, req);
    ContentIsDir(env, snapshot);
    if snapshot != "" {
      MkdirResult(env, s, Location(path));
      var m0 := MkdirAt(env, s, Location(path)).0;
      RestoreMirrors(env, m0, snapshot, path);
      RestoreHolds(env, m0, snapshot, path);
      RestoredContent(cfg, env, s, req, snapshot);
    }
  }

  lemma {:induction false} TreeRepeated(env: Env, s: State, s1: State, s2: State, p: Path, t: Tree, restores: bool,
                                        m: nat)
    requires m <= |Walk(t)| && IsDir(t, [])
    requires restores ==> LiesIn(t, Subtree(s1.mfs, p)) && (Subtree(s1.mfs, p) == t <==> NothingStale(env, s, p, t))
    requires
      var (tree, done) := (Subtree(s1.mfs, p), Arrived(t, m));
      var (cleared, remade) := (CreateClears(env, s1, p), CreateRemakes(env, s1));
      if !restores || !CreateReaches(env, s1) then s2.mfs == s1.mfs
      else
        && s2.mfs == Landed(s1.mfs, p, cleared, remade, done)
        && (cleared && remade ==> m == Reached(env, s1.clock + 5, t))
        && (s2.mfs == s1.mfs <==> if !remade then !cleared else if cleared then done == tree else LiesIn(done, tree))
    ensures RepeatedTree(env, s, s1, s2, p, t, restores, m)
  {
    hide Subtree, Landed, NothingStale, LiesIn, Arrived, Reached, Walk, CreateReaches, CreateClears, CreateRemakes;
    if restores {
      ArrivedPart(t, m);
      LiesInTwice(Arrived(t, m), t, Subtree(s1.mfs, p));
      PartIsWhole(Arrived(t, m), t, Subtree(s1.mfs, p));
    }
  }

  lemma {:induction false} LiesInTwice(a: Tree, b: Tree, c: Tree)
    requires LiesIn(a, b) && LiesIn(b, c)
    ensures LiesIn(a, c)
  {
  }

  /** A repetition returns the same volume, and succeeds when none of its calls fails. */
  lemma {:induction false} RepeatSucceeds(cfg: Config, env: Env, s: State, req: CreateVolumeRequest)
    requires Lawful(env) && ValidDir(s.mfs)
    requires CreateVolume(cfg, env, s, req).1.Ok? && Get(req.parameters, CID) == ""
    ensures
      var (s1, r1) := CreateVolume(cfg, env, s, req);
      var (s2, r2) := CreateVolume(cfg, env, s1, req);
      && (r2.Ok? ==> r2 == r1)
      && (NoFailure(env, s1.clock, s2.clock) && (req.source.None? || Place(cfg, req) != []) ==> r2.Ok?)
  {
    hide Restore, Materialized, NormalizeMFSPath, Location, VolumeOf, Overlay, ValidTree, CanMkdir, Subtree, Outside;
    var path, snapshot := RequestedPath(cfg, req).value, Validate(req).value;
    var p := Location(path);
    var (s1, _) := CreateVolume(cfg, env, s, req);
    PathIsAbs(cfg, req);
    CreateMfs(cfg, env, s, req);
    MkdirAgain(s1.mfs, p);
    MkdirResult(env, s1, p);
    CreateStages(cfg, env, s, req);
    CreateStages(cfg, env, s1, req);
    var (m1, made) := MkdirAt(env, s1, p);
    if snapshot != "" && made {
      MkdirResult(env, s, p);
      RestoreHolds(env, MkdirAt(env, s, p).0, snapshot, path);
      RestoreResult(env, m1, snapshot, path);
      MakeableAgain(s1.mfs, p);
    }
  }

  lemma {:induction false} RestoreHolds(env: Env, s: State, snapshot: string, path: string)
    requires Lawful(env) && ValidDir(s.mfs)
    ensures Restore(env, s, snapshot, path).1.Ok? ==> snapshot in Restore(env, s, snapshot, path).0.blocks
  {
    hide *;
    RestoreResult(env, s, snapshot, path);
  }

  /**
   Repeating is not always harmless: when the repetition of a restore removes the tree and the
   directory is then not made, the call fails and the restored volume is gone.
   */
  lemma {:induction false} RepeatLosesVolume(cfg: Config, env: Env, s: State, req: CreateVolumeRequest)
    requires Lawful(env) && ValidDir(s.mfs) && CreateVolume(cfg, env, s, req).1.Ok? && req.source.Some?
    requires Get(req.parameters, CID) == ""
    requires
      var s1 := CreateVolume(cfg, env, s, req).0;
      CreateReaches(env, s1) && CreateClears(env, s1, Place(cfg, req)) && !CreateRemakes(env, s1)
    ensures
      var s1 := CreateVolume(cfg, env, s, req).0;
      var (s2, r2) := CreateVolume(cfg, env, s1, req);
      r2.Err? && Subtree(s2.mfs, Place(cfg, req)) == map[] && s2.mfs != s1.mfs
  {
    hide CreateVolume, Place, CreateReaches, CreateClears, CreateRemakes, Subtree, Outside, Restored, Arrived, Walk,
         Reached, NothingStale;
    var m := RepeatedMfs(cfg, env, s, req);
    var s1 := CreateVolume(cfg, env, s, req).0;
    NothingAt(s1.mfs, Place(cfg, req));
    RepeatNeedsRemake(cfg, env, s1, req);
  }

  lemma {:induction false} RepeatNeedsRemake(cfg: Config, env: Env, s: State, req: CreateVolumeRequest)
    requires Lawful(env) && req.source.Some? && Get(req.parameters, CID) == ""
    ensures CreateVolume(cfg, env, s, req).1.Ok? ==> CreateRemakes(env, s)
  {
    hide Restore, NormalizeMFSPath, Location, VolumeOf, CanMkdir, Materialized, Held;
    var path := RequestedPath(cfg, req);
    if Validate(req).Ok? && path.Ok? {
      PathIsAbs(cfg, req);
      CreateStages(cfg, env, s, req);
      var s1 := MkdirAt(env, s, Location(path.value)).0;
      assert s1.clock == s.clock + 1;
      RestoreNeedsMkdir(env, s1, Validate(req).value, path.value);
    }
  }

  lemma {:induction false} RestoreNeedsMkdir(env: Env, s: State, snapshot: string, path: string)
    requires Lawful(env)
    ensures Restore(env, s, snapshot, path).1.Ok? ==> env.reply(MkdirCall, s.clock + 4).Success?
  {
    hide Restore, Import, Materialized, Held;
    RestoreStages(env, s, snapshot, path);
    ImportNeedsMkdir(env, Fetched(s, snapshot), Some(Materialized(env.content(snapshot))), path);
  }

  /**
   Nor is one that succeeds: when the first removal takes no effect over stale entries and
   the second one does, the repetition drops them. The volume changes under the
   caller, to what it should have shown from the start.
   */
  lemma {:induction false} RepeatDropsStaleEntries(cfg: Config, env: Env, s: State, req: CreateVolumeRequest)
    requires Lawful(env) && ValidDir(s.mfs) && Validate(req).Ok? && req.source.Some?
    requires CreateVolume(cfg, env, s, req).1.Ok?
    requires
      var s1 := CreateVolume(cfg, env, s, req).0;
      CreateVolume(cfg, env, s1, req).1.Ok? && CreateClears(env, s1, Place(cfg, req))
    requires !NothingStale(env, s, Place(cfg, req), Restored(env, req))
    ensures
      var (p, s1) := (Place(cfg, req), CreateVolume(cfg, env, s, req).0);
      var s2 := CreateVolume(cfg, env, s1, req).0;
      Subtree(s1.mfs, p) != Restored(env, req) && Subtree(s2.mfs, p) == Restored(env, req) && s2.mfs != s1.mfs
  {
    hide CreateVolume, Place, CreateClears, Subtree, Materialized;
    var s1 := CreateVolume(cfg, env, s, req).0;
    FirstIsValid(cfg, env, s, req);
    RestoredContent(cfg, env, s, req, Validate(req).value);
    RestoredContent(cfg, env, s1, req, Validate(req).value);
  }

  lemma {:induction false} FirstIsValid(cfg: Config, env: Env, s: State, req: CreateVolumeRequest)
    requires Lawful(env) && ValidDir(s.mfs) && CreateVolume(cfg, env, s, req).1.Ok?
    ensures ValidDir(CreateVolume(cfg, env, s, req).0.mfs)
  {
    hide ValidTree, Restore, NormalizeMFSPath, Location, VolumeOf, Kept;
    if Get(req.parameters, CID) == "" {
      CreateMfs(cfg, env, s, req);
      KeptIsValid(s, CreateVolume(cfg, env, s, req).0, Place(cfg, req));
    } else {
      CreateLeavesMfs(cfg, env, s, req);
    }
  }

  lemma {:induction false} KeptIsValid(s: State, s': State, p: Path)
    requires Kept(s, s', p)
    ensures ValidDir(s'.mfs)
  {
  }

  /** Nor for pins, under the best-effort policy: a CID the first call failed to pin may be pinned by the second. */
  lemma {:induction false} RepeatPinsLate(cfg: Config, env: Env, s: State, req: CreateVolumeRequest)
    requires CreateVolume(cfg, env, s, req).1.Ok? && Get(req.parameters, CID) !in s.pins
    requires PinReply(env, s).Refused?
    requires
      var s1 := CreateVolume(cfg, env, s, req).0;
      ReachesPin(env, s1, req) && PinReply(env, s1).Success?
    ensures
      var s1 := CreateVolume(cfg, env, s, req).0;
      var (s2, r2) := CreateVolume(cfg, env, s1, req);
      cfg.bestEffort && r2.Ok? && s1.pins == s.pins && s2.pins == s.pins + {Get(req.parameters, CID)} != s1.pins
  {
    hide CreateVolume, ReachesPin;
    CreatePins(cfg, env, s, req);
    CreatePins(cfg, env, CreateVolume(cfg, env, s, req).0, req);
    PinningOnly(env, CreateVolume(cfg, env, s, req).0, req);
  }

  lemma {:induction false} PinningOnly(env: Env, s: State, req: CreateVolumeRequest)
    requires ReachesPin(env, s, req)
    ensures Get(req.parameters, CID) != "" && PinningEnabled(req.parameters)
  {
  }
}
