/** The two promises users rely on, told along a run without looking at history variables. */
module Durability {
  import opened Results
  import opened Paths
  import opened Trees
  import opened Ipfs
  import opened SnapshotStore
  import opened Controller
  import opened NodeService
  import opened Lifecycle
  import opened World
  import opened Soundness
  import opened Pins
  import opened Isolation

  // ------------------------------------------------------------ snapshots

  ghost predicate OnRecord(cfg: Config, w: World, v: SnapshotContent, t: Taken) {
    v in w.vscs && v.driver == cfg.driver && v.name in w.taken && w.taken[v.name] == t
  }

  /** Only its own deletion takes a snapshot off the record. */
  lemma {:induction false} StaysOnRecord(cfg: Config, env: Env, w: World, step: Step, v: SnapshotContent, t: Taken)
    requires OnRecord(cfg, w, v, t) && step != Drop(v.name)
    ensures OnRecord(cfg, Do(cfg, env, w, step), v, t)
  {
    hide CreateVolume, DeleteVolume, CreateSnapshot, DeleteSnapshot, Stage, Unstage, WouldImport, SourceTree, ValidDir,
         PlaceIn, UnstageClears, Handle, Listed;
  }

  lemma {:induction false} RunKeepsRecord(cfg: Config, env: Env, w: World, before: seq<Step>, after: seq<Step>,
                                          v: SnapshotContent, t: Taken)
    requires OnRecord(cfg, Run(cfg, env, w, before), v, t)
    requires forall i :: 0 <= i < |after| ==> after[i] != Drop(v.name)
    ensures OnRecord(cfg, Run(cfg, env, w, before + after), v, t)
    decreases |after|
  {
    hide Do, OnRecord;
    if after == [] {
      assert before + after == before;
    } else {
      var init, steps := after[..|after| - 1], before + after;
      assert steps[..|steps| - 1] == before + init && steps[|steps| - 1] == after[|after| - 1];
      RunKeepsRecord(cfg, env, w, before, init, v, t);
      StaysOnRecord(cfg, env, Run(cfg, env, w, before + init), after[|after| - 1], v, t);
    }
  }

  /** A snapshot can be taken here and now, and its pin call works. */
  ghost predicate TakesSnapshot(cfg: Config, env: Env, w: World, req: CreateSnapshotRequest, vscName: string) {
    && cfg.snapshots && Ours(cfg, w.pvs, req.sourceVolumeId)
    && !(exists v :: v in w.vscs && v.name == vscName)
    && CreateSnapshot(env, w.ipfs, w.pvs, req).1.Ok?
    && SnapshotPinReply(env, w.ipfs).Success?
  }

  lemma {:induction false} TakenOnRecord(cfg: Config, env: Env, w: World, req: CreateSnapshotRequest, vscName: string)
    requires Lawful(env) && Sound(cfg, env, w) && TakesSnapshot(cfg, env, w, req, vscName)
    ensures
      var snapshot := CreateSnapshot(env, w.ipfs, w.pvs, req).1.value;
      var v := Recorded(cfg, snapshot, vscName);
      && v.name == vscName && Handle(v) == snapshot.id
      && OnRecord(cfg, DoTake(cfg, env, w, req, vscName), v, Taken(SourceTree(cfg, w, req.sourceVolumeId), true))
  {
    hide CreateSnapshot, SourceTree, Recorded, Sound;
    TakeEffects(cfg, env, w, req);
    RecordedHandle(cfg, CreateSnapshot(env, w.ipfs, w.pvs, req).1.value, vscName);
  }

  /**
   Take a snapshot of a volume; then let anything happen except deleting that snapshot:
   creating, deleting, staging, writing and unstaging volumes, the source included, other
   snapshots coming and going, objects brought in, garbage collections, failing calls. The
   handle still stands for the tree the source had when the snapshot was taken, that content
   is held locally, and a volume it is restored into shows exactly that tree, exactly if
   nothing stale is left at its place.
   */
  lemma {:induction false} SnapshotDurability(cfg: Config, env: Env, w: World, before: seq<Step>,
                                              req: CreateSnapshotRequest, vscName: string, after: seq<Step>,
                                              restore: CreateVolumeRequest)
    requires Lawful(env) && Initial(cfg, w)
    requires TakesSnapshot(cfg, env, Run(cfg, env, w, before), req, vscName)
    requires forall i :: 0 <= i < |after| ==> after[i] != Drop(vscName)
    requires restore.name != "" && Get(restore.parameters, CID) == "" && RequestedPath(cfg, restore).Ok?
    requires
      var taken := CreateSnapshot(env, Run(cfg, env, w, before).ipfs, Run(cfg, env, w, before).pvs, req).1.value;
      restore.source == Some(FromSnapshot(taken.id))
    ensures
      var past := Run(cfg, env, w, before);
      var tree := SourceTree(cfg, past, req.sourceVolumeId);
      var handle := CreateSnapshot(env, past.ipfs, past.pvs, req).1.value.id;
      var now := Run(cfg, env, w, before + [Take(req, vscName)] + after);
      var (p, t) := (Place(cfg, restore), Materialized(tree));
      var (s', r) := CreateVolume(cfg, env, now.ipfs, restore);
      && Held(env, now.ipfs, handle) && env.content(handle) == tree
      && (r.Ok? ==> (Subtree(s'.mfs, p) == t <==> NothingStale(env, now.ipfs, p, t)))
      && (NoFailure(env, now.ipfs.clock, s'.clock) && p != [] && CanMkdir(now.ipfs.mfs, p) ==> r.Ok?)
  {
    hide CreateSnapshot, SourceTree, Recorded, Sound, DoTake, CreateVolume, RequestedPath, Location, Subtree, Place,
         Materialized, NothingStale, CanMkdir, Held, Handle, Lawful, Initial, NoFailure, CreateClears;
    var past, upTo := Run(cfg, env, w, before), before + [Take(req, vscName)];
    RunSound(cfg, env, w, before);
    TakenOnRecord(cfg, env, past, req, vscName);
    assert upTo[..|upTo| - 1] == before;
    var v := Recorded(cfg, CreateSnapshot(env, past.ipfs, past.pvs, req).1.value, vscName);
    RunKeepsRecord(cfg, env, w, upTo, after, v, Taken(SourceTree(cfg, past, req.sourceVolumeId), true));
    SnapshotEndures(cfg, env, w, upTo + after, v);
    RestoreReproduces(cfg, env, w, upTo + after, v, restore);
  }

  // ------------------------------------------------------------ volumes

  /**
   Unstage a read-write volume, wherever it lies; then let anything happen that does not come
   near its place, with any number of other volumes, snapshots and failing calls. It is still
   listed, and wherever it is staged next, a successful stage shows what was unstaged.
   */
  lemma {:induction false} WorkReachesNextPod(cfg: Config, env: Env, w: World, before: seq<Step>, id: string,
                                              dir: string, cleaned: bool, after: seq<Step>, staging: Option<Tree>)
    requires Lawful(env) && Initial(cfg, w)
    requires Unstages(cfg, env, Run(cfg, env, w, before), id, dir)
    requires
      var q := PlaceIn(cfg, Run(cfg, env, w, before), id);
      SparesRun(cfg, env, w, before + [UnstageAt(id, dir, cleaned)], after, q)
    requires staging.Some? ==> ValidDir(staging.value)
    ensures
      var work := Run(cfg, env, w, before).stagings[dir];
      var now := Run(cfg, env, w, before + [UnstageAt(id, dir, cleaned)] + after);
      && Ours(cfg, now.pvs, id)
      && var context := Owned(cfg, now.pvs, id).csi.value.attributes;
         var (s', out, r) := Stage(env, now.ipfs, context, staging);
         Get(context, CID) == "" ==>
           (r.Ok? ==> out == Some(work)) && (NoFailure(env, now.ipfs.clock, s'.clock) ==> r.Ok?)
  {
    hide Unstages, Sound, Lawful, Initial, Stage, Do, PlaceIn, ValidDir, SparesRun, Shown, NoFailure;
    var past, step := Run(cfg, env, w, before), UnstageAt(id, dir, cleaned);
    var upTo := before + [step];
    RunSound(cfg, env, w, before);
    assert upTo[..|upTo| - 1] == before;
    UnstageWrites(cfg, env, past, id, dir);
    UnstageSaves(cfg, env, past, step);
    RunKeepsShown(cfg, env, w, upTo, after, id, past.stagings[dir]);
    RunSound(cfg, env, w, upTo + after);
    StageOfShown(cfg, env, Run(cfg, env, w, upTo + after), id, past.stagings[dir], staging);
  }

  lemma {:induction false} UnstageWrites(cfg: Config, env: Env, w: World, id: string, dir: string)
    requires Lawful(env) && Sound(cfg, env, w) && Unstages(cfg, env, w, id, dir)
    ensures Ours(cfg, w.pvs, id) && PathOf(cfg, w, id) == Some(PlaceIn(cfg, w, id)) && dir in w.stagings
  {
    hide Unstage, WouldImport, Kept, Subtree, SoundVolumes, SoundSnapshots, UnstageClears, WriteTarget, PlaceIn;
    UnstageEffects(cfg, env, w, id, dir);
  }

  /** What a listed volume shows it goes on showing while no step comes near its place. */
  lemma {:induction false} RunKeepsShown(cfg: Config, env: Env, w: World, before: seq<Step>, after: seq<Step>,
                                         id: string, t: Tree)
    requires Lawful(env) && Initial(cfg, w) && Shown(cfg, Run(cfg, env, w, before), id, t)
    requires SparesRun(cfg, env, w, before, after, PathOf(cfg, Run(cfg, env, w, before), id).value)
    ensures
      var (past, now) := (Run(cfg, env, w, before), Run(cfg, env, w, before + after));
      Shown(cfg, now, id, t) && PathOf(cfg, now, id) == PathOf(cfg, past, id)
    decreases |after|
  {
    hide Do, Sound, Lawful, Initial, Subtree, Spares, PathOf, ValidDir;
    if after == [] {
      assert before + after == before;
    } else {
      var init, last, steps := after[..|after| - 1], after[|after| - 1], before + after;
      assert steps[..|steps| - 1] == before + init && steps[|steps| - 1] == last;
      RunKeepsShown(cfg, env, w, before, init, id, t);
      var mid := Run(cfg, env, w, before + init);
      RunSound(cfg, env, w, before + init);
      StepSpares(cfg, env, mid, last, PathOf(cfg, mid, id).value);
      NotDeleted(cfg, env, mid, last, id);
      StillListed(cfg, env, mid, last, id);
    }
  }

  /** A step that spares the place of a volume does not delete it, though it may try. */
  lemma {:induction false} NotDeleted(cfg: Config, env: Env, w: World, step: Step, id: string)
    requires PathOf(cfg, w, id).Some? && Spares(cfg, env, w, step, PathOf(cfg, w, id).value)
    ensures Ours(cfg, w.pvs, id) && !Removes(env, w, step, id)
  {
    hide WriteTarget, Finds;
  }
}
