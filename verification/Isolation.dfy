/** Where runs may write: never outside the MFS root, and never into another volume's tree. */
module Isolation {
  import opened Results
  import opened Paths
  import opened Trees
  import opened Ipfs
  import opened VolumeStore
  import opened SnapshotStore
  import opened Controller
  import opened NodeService
  import opened Lifecycle
  import opened World
  import opened Soundness

  // ------------------------------------------------------------ what a step touches

  /** The place a listed volume writes to. */
  ghost function PathOf(cfg: Config, w: World, id: string): Option<Path> {
    if Ours(cfg, w.pvs, id) then WriteTarget(Owned(cfg, w.pvs, id).csi.value.attributes) else None
  }

  /** Which place, if any, a step may change in MFS; one that does not find its volume changes none. */
  ghost function Touched(cfg: Config, env: Env, w: World, step: Step): Option<Path> {
    match step
    case Create(req, _) => if Prepares(cfg, w, req) then Some(Place(cfg, req)) else None
    case Delete(id) => if Finds(env, w.ipfs, w.pvs, id) then PathOf(cfg, w, id) else None
    case UnstageAt(id, _, _) => if Finds(env, w.ipfs, w.pvs, id) then PathOf(cfg, w, id) else None
    case _ => None
  }

  /** A creation that gets as far as making a directory. */
  ghost predicate Prepares(cfg: Config, w: World, req: CreateVolumeRequest) {
    && Get(req.parameters, CID) == "" && Validate(req).Ok? && RequestedPath(cfg, req).Ok?
    && !Listed(w.pvs, VolumeId(req.name))
  }

  /** A step changes MFS only at and below the place it touches; missing ancestors may appear. */
  lemma {:induction false} StepTouches(cfg: Config, env: Env, w: World, step: Step)
    requires Lawful(env) && Sound(cfg, env, w)
    ensures
      var w' := Do(cfg, env, w, step);
      match Touched(cfg, env, w, step)
      case None => w'.ipfs.mfs == w.ipfs.mfs
      case Some(p) => KeptAround(w.ipfs.mfs, w'.ipfs.mfs, p)
  {
    hide DoCreate, DoDelete, DoTake, DoDrop, DoUnstage, DoStage, Sound, KeptAround, PathOf, Prepares, Place;
    match step {
      case Create(req, pvName) => CreateTouches(cfg, env, w, req, pvName);
      case Delete(id) => DeleteTouches(cfg, env, w, id);
      case UnstageAt(id, dir, cleaned) => UnstageTouches(cfg, env, w, id, dir, cleaned);
      case Take(req, vscName) => TakeTouches(cfg, env, w, req, vscName);
      case Drop(vscName) => DropTouches(cfg, env, w, vscName);
      case StageAt(id, dir) => StageSound(cfg, env, w, id, dir);
      case _ =>
    }
  }

  lemma {:induction false} CreateTouches(cfg: Config, env: Env, w: World, req: CreateVolumeRequest, pvName: string)
    requires Lawful(env) && Sound(cfg, env, w)
    ensures
      var w' := DoCreate(cfg, env, w, req, pvName);
      if Prepares(cfg, w, req) then KeptAround(w.ipfs.mfs, w'.ipfs.mfs, Place(cfg, req)) else w'.ipfs.mfs == w.ipfs.mfs
  {
    hide Location, RequestedPath, KeptAround, CreateVolume, SoundVolumes, SoundSnapshots;
    if Prepares(cfg, w, req) {
      CreateMfs(cfg, env, w.ipfs, req);
    } else if Validate(req).Err? {
      InvalidCreate(cfg, env, w.ipfs, req);
    } else if !Listed(w.pvs, VolumeId(req.name)) {
      CreateLeavesMfs(cfg, env, w.ipfs, req);
    }
  }

  lemma {:induction false} InvalidCreate(cfg: Config, env: Env, s: State, req: CreateVolumeRequest)
    requires Validate(req).Err?
    ensures CreateVolume(cfg, env, s, req).0 == s
  {
  }

  lemma {:induction false} KeptItself(fs: Tree, p: Path)
    requires ValidDir(fs)
    ensures KeptAround(fs, fs, p)
  {
  }

  lemma {:induction false} DeleteTouches(cfg: Config, env: Env, w: World, id: string)
    requires Sound(cfg, env, w)
    ensures
      var w' := DoDelete(cfg, env, w, id);
      match Touched(cfg, env, w, Delete(id))
      case None => w'.ipfs.mfs == w.ipfs.mfs
      case Some(p) => KeptAround(w.ipfs.mfs, w'.ipfs.mfs, p)
  {
    hide DeleteVolume, Cleanup, KeptAround, SoundSnapshots, WriteTarget, Lookup;
    if Ours(cfg, w.pvs, id) {
      var a := ToAttributes(Owned(cfg, w.pvs, id));
      DeleteEffects(cfg, env, w, id);
      DeleteFinds(cfg, env, w, id);
      CleanupMfs(cfg, env, Tick(w.ipfs), w.pvs, w.vscs, a);
    } else if !Listed(w.pvs, id) {
      NotListedEffects(cfg, env, w, id);
    }
  }

  lemma {:induction false} UnstageTouches(cfg: Config, env: Env, w: World, id: string, dir: string, cleaned: bool)
    requires Lawful(env) && Sound(cfg, env, w)
    ensures
      var w' := DoUnstage(cfg, env, w, id, dir, cleaned);
      match Touched(cfg, env, w, UnstageAt(id, dir, cleaned))
      case None => w'.ipfs.mfs == w.ipfs.mfs
      case Some(p) => KeptAround(w.ipfs.mfs, w'.ipfs.mfs, p)
  {
    hide Unstage, KeptAround, SoundVolumes, SoundSnapshots, WouldImport, Subtree, WriteTarget, PlaceIn, UnstageClears,
         Lookup;
    if Ours(cfg, w.pvs, id) {
      UnstageEffects(cfg, env, w, id, dir);
      ImportsIfFound(cfg, env, w, id);
      forall p: Path {
        KeptItself(w.ipfs.mfs, p);
      }
    }
  }

  lemma {:induction false} ImportsIfFound(cfg: Config, env: Env, w: World, id: string)
    requires SoundVolumes(cfg, w.pvs) && Ours(cfg, w.pvs, id)
    ensures WouldImport(env, w, id) <==> Finds(env, w.ipfs, w.pvs, id) && PathOf(cfg, w, id).Some?
  {
    hide Lookup;
    OursFound(cfg, w.pvs, env.reply(ListCall, w.ipfs.clock).Success?, id);
  }

  lemma {:induction false} TakeTouches(cfg: Config, env: Env, w: World, req: CreateSnapshotRequest, vscName: string)
    requires Lawful(env) && Sound(cfg, env, w)
    ensures DoTake(cfg, env, w, req, vscName).ipfs.mfs == w.ipfs.mfs
  {
    hide CreateSnapshot, Sound, SourceTree;
    if Ours(cfg, w.pvs, req.sourceVolumeId) {
      TakeEffects(cfg, env, w, req);
    }
  }

  lemma {:induction false} DropTouches(cfg: Config, env: Env, w: World, vscName: string)
    ensures DoDrop(cfg, env, w, vscName).ipfs.mfs == w.ipfs.mfs
  {
    hide DeleteSnapshot, VolumeRefs, SnapshotRefs, Handle;
    forall cid: string {
      DropEffects(cfg, env, w, cid);
    }
  }

  // ------------------------------------------------------------ confinement

  /** Away from `root` the trees agree, except that missing ancestors of `root` may have appeared. */
  ghost predicate Confined(fs: Tree, fs': Tree, root: Path) { forall k :: ConfinedAt(fs, fs', root, k) }

  ghost predicate ConfinedAt(fs: Tree, fs': Tree, root: Path, k: Path) {
    root <= k || At(fs', k) == At(fs, k) || (k <= root && At(fs, k) == None && At(fs', k) == Some(DirNode))
  }

  lemma {:induction false} KeptIsConfined(fs: Tree, fs': Tree, p: Path, root: Path)
    requires KeptAround(fs, fs', p) && root <= p
    ensures Confined(fs, fs', root)
  {
    forall k ensures ConfinedAt(fs, fs', root, k) {
      KeptAt(fs, fs', p, root, k);
    }
  }

  lemma {:induction false} KeptAt(fs: Tree, fs': Tree, p: Path, root: Path, k: Path)
    requires KeptAround(fs, fs', p) && root <= p
    ensures ConfinedAt(fs, fs', root, k)
  {
    hide ValidTree;
    if !(root <= k) {
      assert !(p <= k);
      assert At(Outside(fs, p), k) == At(fs, k) && At(Outside(fs', p), k) == At(fs', k);
      if Outside(fs', p) != Outside(fs, p) {
        assert At(Outside(fs + Chain(p), p), k) == At(fs + Chain(p), k);
        if k <= p {
          assert k <= root;
        }
      }
    }
  }

  lemma {:induction false} ConfinedTransitive(a: Tree, b: Tree, c: Tree, root: Path)
    requires Confined(a, b, root) && Confined(b, c, root)
    ensures Confined(a, c, root)
  {
    forall k ensures ConfinedAt(a, c, root, k) {
      assert ConfinedAt(a, b, root, k) && ConfinedAt(b, c, root, k);
    }
  }

  lemma {:induction false} ConfinedToItself(fs: Tree, root: Path)
    ensures Confined(fs, fs, root)
  {
  }

  lemma {:induction false} TouchedUnderRoot(cfg: Config, env: Env, w: World, step: Step)
    requires SafeRoot(cfg.mfsRoot) && AllWellFormed(cfg, w)
    ensures Touched(cfg, env, w, step).Some? ==> Location(cfg.mfsRoot) <= Touched(cfg, env, w, step).value
  {
    hide Location, RequestedPath, SafeRoot, NormalizeMFSPath, Listed;
    if step.Create? && Prepares(cfg, w, step.req) {
      PathIsConfined(cfg, step.req);
    }
  }

  /**
   Every run, explicit paths included, leaves all of MFS outside the configured root as it
   was, as long as nobody else brings in a volume of this driver that lies outside.
   */
  lemma {:induction false} RunsStayUnderRoot(cfg: Config, env: Env, w: World, steps: seq<Step>)
    requires Lawful(env) && SafeRoot(cfg.mfsRoot) && Initial(cfg, w)
    requires forall i :: 0 <= i < |steps| ==> BringsWellFormed(cfg, steps[i])
    ensures Confined(w.ipfs.mfs, Run(cfg, env, w, steps).ipfs.mfs, Location(cfg.mfsRoot))
  {
    hide Do, Confined, Sound, KeptAround, Location, Touched, AllWellFormed, BringsWellFormed, SafeRoot;
    var root := Location(cfg.mfsRoot);
    if steps == [] {
      ConfinedToItself(w.ipfs.mfs, root);
    } else {
      var init, step := steps[..|steps| - 1], steps[|steps| - 1];
      var before := Run(cfg, env, w, init);
      RunsStayUnderRoot(cfg, env, w, init);
      RunSound(cfg, env, w, init);
      RunWellFormed(cfg, env, w, init);
      StepTouches(cfg, env, before, step);
      TouchedUnderRoot(cfg, env, before, step);
      var after := Do(cfg, env, before, step);
      match Touched(cfg, env, before, step) {
        case None =>
        case Some(p) =>
          KeptIsConfined(before.ipfs.mfs, after.ipfs.mfs, p, root);
          ConfinedTransitive(w.ipfs.mfs, before.ipfs.mfs, after.ipfs.mfs, root);
      }
    }
  }

  // ------------------------------------------------------------ places no step comes near

  lemma {:induction false} KeptFrame(fs: Tree, fs': Tree, p: Path, q: Path)
    requires KeptAround(fs, fs', p) && !Comparable(p, q)
    ensures Subtree(fs', q) == Subtree(fs, q)
  {
    hide ValidTree, Subtree;
    if Outside(fs', p) == Outside(fs, p) {
      OutsideFrame(fs, fs', p, q);
    } else {
      OutsideFrame(fs + Chain(p), fs', p, q);
      ChainFrame(fs, p, q);
    }
  }

  /** The step touches nothing, or a place neither above nor below `q`. */
  ghost predicate Spares(cfg: Config, env: Env, w: World, step: Step, q: Path) {
    Touched(cfg, env, w, step).Some? ==> !Comparable(Touched(cfg, env, w, step).value, q)
  }

  lemma {:induction false} StepSpares(cfg: Config, env: Env, w: World, step: Step, q: Path)
    requires Lawful(env) && Sound(cfg, env, w) && Spares(cfg, env, w, step, q)
    ensures Subtree(Do(cfg, env, w, step).ipfs.mfs, q) == Subtree(w.ipfs.mfs, q)
  {
    hide Do, Sound, KeptAround, Subtree, Touched;
    StepTouches(cfg, env, w, step);
    match Touched(cfg, env, w, step) {
      case None =>
      case Some(p) => KeptFrame(w.ipfs.mfs, Do(cfg, env, w, step).ipfs.mfs, p, q);
    }
  }

  /** After `before`, none of the steps `after` comes near `q`. */
  ghost predicate SparesRun(cfg: Config, env: Env, w: World, before: seq<Step>, after: seq<Step>, q: Path)
    decreases |after|
  {
    after == [] ||
    (SparesRun(cfg, env, w, before, after[..|after| - 1], q)
     && Spares(cfg, env, Run(cfg, env, w, before + after[..|after| - 1]), after[|after| - 1], q))
  }

  /** Whatever volumes there are and wherever they lie: a place no step comes near keeps its tree. */
  lemma {:induction false} RunSpares(cfg: Config, env: Env, w: World, before: seq<Step>, after: seq<Step>, q: Path)
    requires Lawful(env) && Initial(cfg, w) && SparesRun(cfg, env, w, before, after, q)
    ensures Subtree(Run(cfg, env, w, before + after).ipfs.mfs, q) == Subtree(Run(cfg, env, w, before).ipfs.mfs, q)
    decreases |after|
  {
    hide Do, Sound, Subtree, Lawful, Initial, Spares;
    if after == [] {
      assert before + after == before;
    } else {
      var init, last, steps := after[..|after| - 1], after[|after| - 1], before + after;
      assert steps[..|steps| - 1] == before + init && steps[|steps| - 1] == last;
      RunSpares(cfg, env, w, before, init, q);
      RunSound(cfg, env, w, before + init);
      StepSpares(cfg, env, Run(cfg, env, w, before + init), last, q);
    }
  }

  /**
   And coming near does harm: a deletion whose removal takes effect leaves the tree at `q` as
   it was exactly if the deleted volume's place is neither above nor below `q`.
   */
  lemma {:induction false} DeleteSparesExactly(cfg: Config, env: Env, w: World, id: string, q: Path)
    requires Sound(cfg, env, w) && Ours(cfg, w.pvs, id) && q in w.ipfs.mfs
    requires
      var context := Owned(cfg, w.pvs, id).csi.value.attributes;
      && Get(context, CID) == "" && WriteTarget(context).Some? && IsAbs(Get(context, MFS_PATH))
      && PlaceIn(cfg, w, id) in w.ipfs.mfs && DeleteClears(env, w.ipfs, PlaceIn(cfg, w, id))
    requires DeleteVolume(cfg, env, w.ipfs, w.pvs, w.vscs, id).1.Ok?
    ensures
      Subtree(DeleteVolume(cfg, env, w.ipfs, w.pvs, w.vscs, id).0.mfs, q) == Subtree(w.ipfs.mfs, q) <==>
        !Comparable(PlaceIn(cfg, w, id), q)
  {
    hide DeleteVolume, PlaceIn, SoundVolumes, SoundSnapshots, DeleteClears, WriteTarget, Subtree, Outside, ValidTree;
    var (p, fs') := (PlaceIn(cfg, w, id), DeleteVolume(cfg, env, w.ipfs, w.pvs, w.vscs, id).0.mfs);
    DeletedTreeIsGone(cfg, env, w, id);
    if Comparable(p, q) {
      HoleShows(w.ipfs.mfs, fs', p, q);
    } else {
      OutsideFrame(w.ipfs.mfs, fs', p, q);
    }
  }

  lemma {:induction false} HoleShows(fs: Tree, fs': Tree, p: Path, q: Path)
    requires p in fs && q in fs && Subtree(fs', p) == map[] && Comparable(p, q)
    ensures Subtree(fs', q) != Subtree(fs, q)
  {
    var (top, low) := if p <= q then (p, q) else (q, p);
    var rest := low[|top|..];
    assert low == top + rest && q + [] == q && p + [] == p;
    SubtreeAt(fs', p, if p <= q then rest else []);
    SubtreeAt(fs', q, if p <= q then [] else rest);
    SubtreeAt(fs, q, if p <= q then [] else rest);
    assert At(Subtree(fs', p), if p <= q then rest else []) == None;
  }

  /** For instance, deleting a volume erases every volume that lies inside it. */
  lemma {:induction false} OuterDeleteErasesInner(cfg: Config, env: Env, w: World, outer: string, inner: string)
    requires Sound(cfg, env, w) && Ours(cfg, w.pvs, outer) && Ours(cfg, w.pvs, inner)
    requires
      var context := Owned(cfg, w.pvs, outer).csi.value.attributes;
      && Get(context, CID) == "" && WriteTarget(context).Some? && IsAbs(Get(context, MFS_PATH))
      && DeleteClears(env, w.ipfs, PlaceIn(cfg, w, outer)) && PlaceIn(cfg, w, outer) <= PlaceIn(cfg, w, inner)
    requires DeleteVolume(cfg, env, w.ipfs, w.pvs, w.vscs, outer).1.Ok?
    ensures Subtree(DeleteVolume(cfg, env, w.ipfs, w.pvs, w.vscs, outer).0.mfs, PlaceIn(cfg, w, inner)) == map[]
  {
    hide DeleteVolume, PlaceIn, SoundVolumes, SoundSnapshots, DeleteClears, WriteTarget, Outside, ValidTree;
    var (p, q) := (PlaceIn(cfg, w, outer), PlaceIn(cfg, w, inner));
    var fs' := DeleteVolume(cfg, env, w.ipfs, w.pvs, w.vscs, outer).0.mfs;
    DeletedTreeIsGone(cfg, env, w, outer);
    var rest := q[|p|..];
    assert q == p + rest;
    forall k ensures k !in Subtree(fs', q) {
      assert p + (rest + k) == q + k;
      assert rest + k !in Subtree(fs', p);
    }
  }

  lemma {:induction false} UnstageIsImport(cfg: Config, env: Env, w: World, id: string, dir: string)
    requires SoundVolumes(cfg, w.pvs) && Ours(cfg, w.pvs, id) && WouldImport(env, w, id)
    ensures
      var path := Get(Owned(cfg, w.pvs, id).csi.value.attributes, MFS_PATH);
      var (s', ok) := Import(env, Tick(w.ipfs), Found(w.stagings, dir), path);
      Unstage(env, w.ipfs, w.pvs, id, Found(w.stagings, dir)) == (s', if ok then Ok(()) else Err(Internal))
  {
    hide Lookup, Import;
    OursFound(cfg, w.pvs, env.reply(ListCall, w.ipfs.clock).Success?, id);
  }

  /**
   The same for unstaging, successful or not: the tree at `q` is left as it was exactly if
   what is now seen at the volume's place agrees with it where the two places overlap. That is
   what the import got done, in place of the old tree, over it, or not at all.
   */
  lemma {:induction false} UnstageSparesExactly(cfg: Config, env: Env, w: World, id: string, dir: string, q: Path)
    returns (m: nat)
    requires Lawful(env) && Sound(cfg, env, w) && Ours(cfg, w.pvs, id) && WouldImport(env, w, id)
    requires IsAbs(Get(Owned(cfg, w.pvs, id).csi.value.attributes, MFS_PATH))
    ensures dir in w.stagings ==> m <= |Walk(w.stagings[dir])|
    ensures
      var (fs, p, done) := (w.ipfs.mfs, PlaceIn(cfg, w, id), Done(Found(w.stagings, dir), m));
      var (cleared, remade) := (UnstageClears(env, w.ipfs, p), Remakes(env, Tick(w.ipfs), p));
      var (s', r) := Unstage(env, w.ipfs, w.pvs, id, Found(w.stagings, dir));
      && s'.mfs == Landed(fs, p, cleared, remade, done)
      && (Subtree(s'.mfs, q) == Subtree(fs, q) <==> Agrees(fs, p, LandedShows(fs, p, cleared, remade, done), q))
      && (cleared && remade && dir in w.stagings ==> m == Reached(env, w.ipfs.clock + 2, w.stagings[dir]))
      && (r.Ok? ==> dir in w.stagings && remade && done == w.stagings[dir])
  {
    hide Unstage, Import, WouldImport, SoundVolumes, SoundSnapshots, Landed, LandedShows, Agrees, Subtree, Remakes,
         Reached, Walk, Location, ValidTree, Done, Clears;
    UnstageIsImport(cfg, env, w, id, dir);
    var path := Get(Owned(cfg, w.pvs, id).csi.value.attributes, MFS_PATH);
    m := ImportSparesExactly(env, Tick(w.ipfs), Found(w.stagings, dir), path, q);
  }

  lemma {:induction false} ImportSparesExactly(env: Env, s: State, local: Option<Tree>, path: string, q: Path)
    returns (m: nat)
    requires Lawful(env) && ValidDir(s.mfs) && IsAbs(path) && (local.Some? ==> ValidDir(local.value))
    ensures local.Some? ==> m <= |Walk(local.value)|
    ensures
      var (fs, p, done) := (s.mfs, Location(path), Done(local, m));
      var (cleared, remade) := (Clears(env, s.clock, p), Remakes(env, s, p));
      var (s', ok) := Import(env, s, local, path);
      && s'.mfs == Landed(fs, p, cleared, remade, done)
      && (Subtree(s'.mfs, q) == Subtree(fs, q) <==> Agrees(fs, p, LandedShows(fs, p, cleared, remade, done), q))
      && (cleared && remade && local.Some? ==> m == Reached(env, s.clock + 1, local.value))
      && (ok ==> local.Some? && remade && done == local.value)
  {
    hide *;
    m := ImportLeaves(env, s, local, path);
    RootOfLocal(local);
    DoneIsDir(local, m);
    LandedSpares(s.mfs, Location(path), Clears(env, s.clock, Location(path)), Remakes(env, s, Location(path)),
                 Done(local, m), q);
  }

  lemma {:induction false} RootOfLocal(local: Option<Tree>)
    requires local.Some? ==> ValidDir(local.value)
    ensures local.Some? ==> IsDir(local.value, [])
  {
  }

  // ------------------------------------------------------------ volumes apart from each other

  /** The place of a read-write volume that the step may add. */
  ghost function NewPlace(cfg: Config, w: World, step: Step): Option<Path> {
    match step
    case Create(req, _) => if Prepares(cfg, w, req) then Some(Place(cfg, req)) else None
    case VolumeAppears(pv) => if OwnedBy(pv, cfg.driver) then WriteTarget(pv.csi.value.attributes) else None
    case _ => None
  }

  /** What the caller of a step can see to: a new place is neither above nor below that of a listed volume. */
  ghost predicate Apart(cfg: Config, w: World, step: Step) {
    NewPlace(cfg, w, step).Some? ==>
      forall pv :: pv in w.pvs && Writes(cfg, pv) ==> !Comparable(NewPlace(cfg, w, step).value, TargetOf(cfg, pv))
  }

  ghost predicate Writes(cfg: Config, pv: PersistentVolume) {
    OwnedBy(pv, cfg.driver) && WriteTarget(pv.csi.value.attributes).Some?
  }

  ghost function TargetOf(cfg: Config, pv: PersistentVolume): Path
    requires Writes(cfg, pv)
  {
    WriteTarget(pv.csi.value.attributes).value
  }

  ghost predicate ApartRun(cfg: Config, env: Env, w: World, steps: seq<Step>) {
    steps == [] ||
    (ApartRun(cfg, env, w, steps[..|steps| - 1])
     && Apart(cfg, Run(cfg, env, w, steps[..|steps| - 1]), steps[|steps| - 1]))
  }

  /** No two listed read-write volumes lie one inside the other. */
  ghost predicate Disjoint(cfg: Config, w: World) {
    forall a, b :: a in w.pvs && b in w.pvs && a != b && Writes(cfg, a) && Writes(cfg, b) ==>
      !Comparable(TargetOf(cfg, a), TargetOf(cfg, b))
  }

  /** A volume added by a step writes to the new place. */
  lemma {:induction false} AddedVolume(cfg: Config, env: Env, w: World, step: Step, pv: PersistentVolume)
    requires pv in Do(cfg, env, w, step).pvs && pv !in w.pvs && Writes(cfg, pv)
    ensures NewPlace(cfg, w, step) == Some(TargetOf(cfg, pv))
    ensures forall other :: other in Do(cfg, env, w, step).pvs && other != pv ==> other in w.pvs
  {
    hide CreateVolume, DeleteVolume, CreateSnapshot, DeleteSnapshot, Stage, Unstage, WouldImport, SourceTree, PlaceIn,
         ValidDir, RequestedPath, UnstageClears, WriteTarget, Handle, VolumeOf;
    if step.Create? {
      CreatedContext(cfg, env, w.ipfs, step.req);
      CreatedFrom(cfg, env, w.ipfs, step.req);
    }
  }

  lemma {:induction false} StepDisjoint(cfg: Config, env: Env, w: World, step: Step)
    requires Disjoint(cfg, w) && Apart(cfg, w, step)
    ensures Disjoint(cfg, Do(cfg, env, w, step))
  {
    hide Do, NewPlace, Writes;
    var w' := Do(cfg, env, w, step);
    forall a, b | a in w'.pvs && b in w'.pvs && a != b && Writes(cfg, a) && Writes(cfg, b)
      ensures !Comparable(TargetOf(cfg, a), TargetOf(cfg, b))
    {
      if a !in w.pvs {
        AddedVolume(cfg, env, w, step, a);
      }
      if b !in w.pvs {
        AddedVolume(cfg, env, w, step, b);
      }
    }
  }

  lemma {:induction false} RunDisjoint(cfg: Config, env: Env, w: World, steps: seq<Step>)
    requires Initial(cfg, w) && ApartRun(cfg, env, w, steps)
    ensures Disjoint(cfg, Run(cfg, env, w, steps))
  {
    hide Do, Apart;
    if steps != [] {
      RunDisjoint(cfg, env, w, steps[..|steps| - 1]);
      StepDisjoint(cfg, env, Run(cfg, env, w, steps[..|steps| - 1]), steps[|steps| - 1]);
    }
  }

  /** The volume whose MFS tree a step is about. */
  function Target(step: Step): Option<string> {
    match step
    case Create(req, _) => Some(VolumeId(req.name))
    case Delete(id) => Some(id)
    case UnstageAt(id, _, _) => Some(id)
    case _ => None
  }

  /** Among volumes apart from each other, a step about one comes near no other. */
  lemma {:induction false} OthersSpared(cfg: Config, env: Env, w: World, step: Step, id: string)
    requires Disjoint(cfg, w) && Apart(cfg, w, step) && Target(step) != Some(id) && PathOf(cfg, w, id).Some?
    ensures Spares(cfg, env, w, step, PathOf(cfg, w, id).value)
  {
    hide WriteTarget, RequestedPath, Place, VolumeId, Validate;
    var pv := Owned(cfg, w.pvs, id);
    assert Writes(cfg, pv);
    if Touched(cfg, env, w, step).Some? && !step.Create? {
      var other := Owned(cfg, w.pvs, Target(step).value);
      assert Writes(cfg, other) && other != pv;
    }
  }

  /**
   A step about one volume (creating it, restoring into it, unstaging it, deleting it)
   leaves every other volume's tree alone, if volumes are kept apart.
   */
  lemma {:induction false} StepIsolated(cfg: Config, env: Env, w: World, step: Step, id: string)
    requires Lawful(env) && Sound(cfg, env, w) && Disjoint(cfg, w) && Apart(cfg, w, step)
    requires Target(step) != Some(id) && PathOf(cfg, w, id).Some?
    ensures
      var q := PathOf(cfg, w, id).value;
      Subtree(Do(cfg, env, w, step).ipfs.mfs, q) == Subtree(w.ipfs.mfs, q)
  {
    hide *;
    OthersSpared(cfg, env, w, step, id);
    StepSpares(cfg, env, w, step, PathOf(cfg, w, id).value);
  }

  /** The same over a whole run: while no step is about a listed volume, its tree does not change. */
  lemma {:induction false} RunIsolated(cfg: Config, env: Env, w: World, before: seq<Step>, after: seq<Step>, id: string)
    requires Lawful(env) && Initial(cfg, w) && ApartRun(cfg, env, w, before + after)
    requires PathOf(cfg, Run(cfg, env, w, before), id).Some?
    requires forall i :: 0 <= i < |after| ==> Target(after[i]) != Some(id)
    ensures
      var (past, now) := (Run(cfg, env, w, before), Run(cfg, env, w, before + after));
      var q := PathOf(cfg, past, id).value;
      PathOf(cfg, now, id) == Some(q) && Subtree(now.ipfs.mfs, q) == Subtree(past.ipfs.mfs, q)
    decreases |after|
  {
    hide Do, Sound, Disjoint, Subtree, Lawful, Initial, PathOf, Apart, Target;
    if after == [] {
      assert before + after == before;
    } else {
      var init, last, steps := after[..|after| - 1], after[|after| - 1], before + after;
      assert steps[..|steps| - 1] == before + init && steps[|steps| - 1] == last;
      RunIsolated(cfg, env, w, before, init, id);
      RunSound(cfg, env, w, before + init);
      RunDisjoint(cfg, env, w, before + init);
      var mid := Run(cfg, env, w, before + init);
      StepIsolated(cfg, env, mid, last, id);
      AboutAnother(env, mid, last, id);
      WritesIsOurs(cfg, mid, id);
      StillListed(cfg, env, mid, last, id);
    }
  }

  /** A deletion that finds the volume. */
  ghost predicate Removes(env: Env, w: World, step: Step, id: string) {
    step == Delete(id) && Finds(env, w.ipfs, w.pvs, id)
  }

  lemma {:induction false} AboutAnother(env: Env, w: World, step: Step, id: string)
    requires Target(step) != Some(id)
    ensures !Removes(env, w, step, id)
  {
  }

  lemma {:induction false} WritesIsOurs(cfg: Config, w: World, id: string)
    requires PathOf(cfg, w, id).Some?
    ensures Ours(cfg, w.pvs, id)
  {
  }

  lemma {:induction false} StillListed(cfg: Config, env: Env, w: World, step: Step, id: string)
    requires Sound(cfg, env, w) && Ours(cfg, w.pvs, id) && !Removes(env, w, step, id)
    ensures
      var w' := Do(cfg, env, w, step);
      Ours(cfg, w'.pvs, id) && Owned(cfg, w'.pvs, id) == Owned(cfg, w.pvs, id)
      && PathOf(cfg, w', id) == PathOf(cfg, w, id)
  {
    hide CreateVolume, DeleteVolume, CreateSnapshot, DeleteSnapshot, Stage, Unstage, WouldImport, SourceTree, PlaceIn,
         ValidDir, RequestedPath, SoundSnapshots, UnstageClears, WriteTarget, Handle;
    var pv := Owned(cfg, w.pvs, id);
    var w' := Do(cfg, env, w, step);
    DeleteFinds(cfg, env, w, id);
    assert pv in w'.pvs;
    OwnedUnique(cfg, env, w, step, pv, id);
  }

  lemma {:induction false} OwnedUnique(cfg: Config, env: Env, w: World, step: Step, pv: PersistentVolume, id: string)
    requires Sound(cfg, env, w) && pv in w.pvs && HasHandle(pv, id) && OwnedBy(pv, cfg.driver)
    ensures forall other :: other in Do(cfg, env, w, step).pvs && HasHandle(other, id) ==> other == pv
  {
    hide CreateVolume, DeleteVolume, CreateSnapshot, DeleteSnapshot, Stage, Unstage, WouldImport, SourceTree, PlaceIn,
         ValidDir, SoundSnapshots, VolumeId, UnstageClears, Handle, WriteTarget, Place;
    assert Listed(w.pvs, id);
    forall other | other in Do(cfg, env, w, step).pvs && HasHandle(other, id) ensures other == pv {
      if other in w.pvs {
        OneOwner(w.pvs, other, pv, id);
      } else if step.Create? {
        CreatedContext(cfg, env, w.ipfs, step.req);
      }
    }
  }

  // ------------------------------------------------------------ automatic places

  /** The place of an automatically provisioned volume, read off its identifier. */
  function AutoPlace(cfg: Config, id: string): Path {
    Location(cfg.mfsRoot) + [if VOLUME_PREFIX <= id then id[|VOLUME_PREFIX|..] else id]
  }

  lemma {:induction false} AutoPlacesApart(cfg: Config, a: string, b: string)
    requires VOLUME_PREFIX <= a && VOLUME_PREFIX <= b && a != b
    ensures !Comparable(AutoPlace(cfg, a), AutoPlace(cfg, b))
  {
    hide Location;
    var n, r := |VOLUME_PREFIX|, Location(cfg.mfsRoot);
    assert a == VOLUME_PREFIX + a[n..] && b == VOLUME_PREFIX + b[n..];
    assert AutoPlace(cfg, a)[|r|] != AutoPlace(cfg, b)[|r|];
  }

  lemma {:induction false} AutoPlaceOf(cfg: Config, req: CreateVolumeRequest)
    requires SafeRoot(cfg.mfsRoot) && req.name != "" && Get(req.parameters, MFS_PATH) == ""
    ensures RequestedPath(cfg, req).Ok? && Place(cfg, req) == AutoPlace(cfg, VolumeId(req.name))
    ensures VOLUME_PREFIX <= VolumeId(req.name)
  {
    AutoPath(req.name, cfg.mfsRoot);
    assert VolumeId(req.name)[|VOLUME_PREFIX|..] == Sanitize(req.name);
  }

  /** All read-write volumes of this driver stand at their automatic places. */
  ghost predicate AutoWorld(cfg: Config, w: World) {
    forall pv :: pv in w.pvs && Writes(cfg, pv) ==>
      VOLUME_PREFIX <= pv.csi.value.handle && TargetOf(cfg, pv) == AutoPlace(cfg, pv.csi.value.handle)
  }

  /** No explicit path is asked for, and no read-write volume brought in. */
  ghost predicate AutoStep(cfg: Config, step: Step) {
    && (step.Create? ==> Get(step.req.parameters, MFS_PATH) == "")
    && (step.VolumeAppears? ==> !Writes(cfg, step.pv))
  }

  lemma {:induction false} AutoKept(cfg: Config, env: Env, w: World, step: Step)
    requires SafeRoot(cfg.mfsRoot) && AutoWorld(cfg, w) && AutoStep(cfg, step)
    ensures AutoWorld(cfg, Do(cfg, env, w, step))
  {
    hide CreateVolume, DeleteVolume, CreateSnapshot, DeleteSnapshot, Stage, Unstage, WouldImport, SourceTree, PlaceIn,
         ValidDir, Location, Place, AutoPlace, UnstageClears, Handle, WriteTarget, RequestedPath, SafeRoot;
    if step.Create? {
      CreatedContext(cfg, env, w.ipfs, step.req);
      CreatedFrom(cfg, env, w.ipfs, step.req);
      if step.req.name != "" {
        AutoPlaceOf(cfg, step.req);
      }
    }
  }

  lemma {:induction false} AutoIsApart(cfg: Config, w: World, step: Step)
    requires SafeRoot(cfg.mfsRoot) && AutoWorld(cfg, w) && AutoStep(cfg, step)
    ensures Apart(cfg, w, step)
  {
    hide Location, Place, AutoPlace, RequestedPath, SafeRoot, WriteTarget;
    if step.Create? && Prepares(cfg, w, step.req) {
      AutoPlaceOf(cfg, step.req);
      forall pv | pv in w.pvs && Writes(cfg, pv) ensures !Comparable(Place(cfg, step.req), TargetOf(cfg, pv)) {
        assert HasHandle(pv, pv.csi.value.handle);
        AutoPlacesApart(cfg, VolumeId(step.req.name), pv.csi.value.handle);
      }
    }
  }

  /** Automatic volumes keep apart by themselves: every run of them is one in which volumes are kept apart. */
  lemma {:induction false} AutoRunsAreApart(cfg: Config, env: Env, w: World, steps: seq<Step>)
    requires SafeRoot(cfg.mfsRoot) && Initial(cfg, w) && forall i :: 0 <= i < |steps| ==> AutoStep(cfg, steps[i])
    ensures ApartRun(cfg, env, w, steps) && AutoWorld(cfg, Run(cfg, env, w, steps))
  {
    hide Do, AutoPlace, SafeRoot, Location, AutoStep, Apart;
    if steps != [] {
      var before := steps[..|steps| - 1];
      AutoRunsAreApart(cfg, env, w, before);
      AutoIsApart(cfg, Run(cfg, env, w, before), steps[|steps| - 1]);
      AutoKept(cfg, env, Run(cfg, env, w, before), steps[|steps| - 1]);
    }
  }

  /**
   Why a volume has to be created under a name whose identifier is not listed: names that
   collide share their automatic place. A creation under such a name works on the tree of the
   listed volume, which survives exactly as `CreateKeepsExactly` says.
   */
  lemma {:induction false} CollidingCreateKeepsExactly(cfg: Config, env: Env, w: World, req: CreateVolumeRequest)
    returns (m: nat)
    requires Lawful(env) && Sound(cfg, env, w) && SafeRoot(cfg.mfsRoot) && AutoWorld(cfg, w) && Validate(req).Ok?
    requires Get(req.parameters, CID) == "" && Get(req.parameters, MFS_PATH) == ""
    requires
      var place := PathOf(cfg, w, VolumeId(req.name));
      place.Some? && IsDir(w.ipfs.mfs, place.value)
    ensures m <= |Walk(Restored(env, req))|
    ensures
      var p := PathOf(cfg, w, VolumeId(req.name)).value;
      var (tree, done) := (Subtree(w.ipfs.mfs, p), Arrived(Restored(env, req), m));
      var (cleared, remade) := (CreateClears(env, w.ipfs, p), CreateRemakes(env, w.ipfs));
      var s' := CreateVolume(cfg, env, w.ipfs, req).0;
      && Place(cfg, req) == p
      && if req.source.None? || !CreateReaches(env, w.ipfs) || !Served(env, Tick(w.ipfs), Validate(req).value)
         then s'.mfs == w.ipfs.mfs
         else
           && s'.mfs == Landed(w.ipfs.mfs, p, cleared, remade, done)
           && (s'.mfs == w.ipfs.mfs <==>
                 if !remade then !cleared else if cleared then done == tree else LiesIn(done, tree))
  {
    hide CreateVolume, RequestedPath, Location, AutoPlace, WriteTarget, SafeRoot, Restored, Arrived, Walk, Landed,
         Subtree, CreateReaches, CreateClears, CreateRemakes, Served, Place, VolumeId, SoundVolumes, SoundSnapshots;
    var pv := Owned(cfg, w.pvs, VolumeId(req.name));
    assert Writes(cfg, pv);
    AutoPlaceOf(cfg, req);
    m := CreateKeepsExactly(cfg, env, w.ipfs, req);
  }

  // ------------------------------------------------------------ each pod sees the last one's work

  ghost predicate SavedIsShown(cfg: Config, w: World) {
    forall id :: id in w.saved ==> Shown(cfg, w, id, w.saved[id])
  }

  /** A listed read-write volume whose tree in MFS is `t`. */
  ghost predicate Shown(cfg: Config, w: World, id: string, t: Tree) {
    && PathOf(cfg, w, id).Some? && IsAbs(Get(Owned(cfg, w.pvs, id).csi.value.attributes, MFS_PATH))
    && ValidDir(t) && Subtree(w.ipfs.mfs, PathOf(cfg, w, id).value) == t
  }

  lemma {:induction false} SavedStep(cfg: Config, env: Env, w: World, step: Step)
    requires Lawful(env) && Sound(cfg, env, w) && Disjoint(cfg, w) && Apart(cfg, w, step)
    requires SavedIsShown(cfg, w)
    ensures SavedIsShown(cfg, Do(cfg, env, w, step))
  {
    hide Do, Disjoint, Apart, Shown, Lawful, WouldImport, SoundVolumes, SoundSnapshots, Removes, ValidDir;
    var w' := Do(cfg, env, w, step);
    forall id | id in w'.saved ensures Shown(cfg, w', id, w'.saved[id]) {
      if step.UnstageAt? {
        SavedByUnstage(cfg, env, w, step, id);
        NoRemoval(env, w, step, id);
      } else {
        SavedByOthers(cfg, env, w, step, id);
      }
      if step.UnstageAt? && step.id == id && Ours(cfg, w.pvs, id) && WouldImport(env, w, id) {
        UnstageSaves(cfg, env, w, step);
      } else {
        assert Shown(cfg, w, id, w.saved[id]);
        ShownIsOurs(cfg, w, id);
        StillShown(cfg, env, w, step, id);
      }
    }
  }

  lemma {:induction false} NoRemoval(env: Env, w: World, step: Step, id: string)
    requires !step.Delete?
    ensures !Removes(env, w, step, id)
  {
  }

  lemma {:induction false} ShownIsOurs(cfg: Config, w: World, id: string)
    requires id in w.saved && Shown(cfg, w, id, w.saved[id])
    ensures Ours(cfg, w.pvs, id)
  {
  }

  /** Where an entry of `saved` comes from: an unstage of the volume, or from before. */
  lemma {:induction false} SavedByUnstage(cfg: Config, env: Env, w: World, step: Step, id: string)
    requires step.UnstageAt? && id in Do(cfg, env, w, step).saved
    ensures
      var w' := Do(cfg, env, w, step);
      if step.id == id && Ours(cfg, w.pvs, id) && WouldImport(env, w, id) then
        Unstages(cfg, env, w, id, step.dir) && w'.saved[id] == w.stagings[step.dir]
      else
        id in w.saved && w'.saved[id] == w.saved[id]
  {
    hide Unstage, WouldImport, PlaceIn, UnstageClears;
  }

  lemma {:induction false} SavedByOthers(cfg: Config, env: Env, w: World, step: Step, id: string)
    requires !step.UnstageAt? && SoundVolumes(cfg, w.pvs) && id in Do(cfg, env, w, step).saved
    ensures id in w.saved && Do(cfg, env, w, step).saved[id] == w.saved[id]
    ensures Ours(cfg, w.pvs, id) ==> !Removes(env, w, step, id)
  {
    hide CreateVolume, DeleteVolume, CreateSnapshot, DeleteSnapshot, Stage, SourceTree, ValidDir, Handle, Listed,
         SoundVolumes, Lookup;
    if Ours(cfg, w.pvs, id) {
      DeleteFinds(cfg, env, w, id);
    }
  }

  /** An unstage that imports, succeeds, and whose removal takes effect. */
  ghost predicate Unstages(cfg: Config, env: Env, w: World, id: string, dir: string) {
    && Ours(cfg, w.pvs, id) && WouldImport(env, w, id) && dir in w.stagings
    && UnstageClears(env, w.ipfs, PlaceIn(cfg, w, id))
    && Unstage(env, w.ipfs, w.pvs, id, Found(w.stagings, dir)).1.Ok?
  }

  lemma {:induction false} UnstageSaves(cfg: Config, env: Env, w: World, step: Step)
    requires Lawful(env) && Sound(cfg, env, w) && step.UnstageAt? && Unstages(cfg, env, w, step.id, step.dir)
    ensures Shown(cfg, Do(cfg, env, w, step), step.id, w.stagings[step.dir])
    ensures PathOf(cfg, Do(cfg, env, w, step), step.id) == PathOf(cfg, w, step.id)
  {
    hide Unstage, WouldImport, Location, Kept, Subtree, SoundVolumes, SoundSnapshots, UnstageClears, WriteTarget,
         PlaceIn;
    UnstageEffects(cfg, env, w, step.id, step.dir);
  }

  lemma {:induction false} StillShown(cfg: Config, env: Env, w: World, step: Step, id: string)
    requires Lawful(env) && Sound(cfg, env, w) && Disjoint(cfg, w) && Apart(cfg, w, step)
    requires id in w.saved && Shown(cfg, w, id, w.saved[id])
    requires !Removes(env, w, step, id) && !(step.UnstageAt? && step.id == id && WouldImport(env, w, id))
    ensures Shown(cfg, Do(cfg, env, w, step), id, w.saved[id])
  {
    hide Sound, Disjoint, Apart, Lawful, Subtree, Do, WouldImport, ValidDir, PathOf, VolumeId, Removes;
    ShownIsOurs(cfg, w, id);
    StillListed(cfg, env, w, step, id);
    if Target(step) != Some(id) {
      StepIsolated(cfg, env, w, step, id);
    } else {
      IdleOnTarget(cfg, env, w, step, id);
    }
  }

  /** Creating a listed volume again, a deletion that fails, or an unstage that imports nothing does not touch MFS. */
  lemma {:induction false} IdleOnTarget(cfg: Config, env: Env, w: World, step: Step, id: string)
    requires Lawful(env) && Sound(cfg, env, w) && Ours(cfg, w.pvs, id) && Target(step) == Some(id)
    requires !Removes(env, w, step, id) && !(step.UnstageAt? && WouldImport(env, w, id))
    ensures Do(cfg, env, w, step).ipfs.mfs == w.ipfs.mfs
  {
    hide Unstage, WouldImport, Kept, SoundSnapshots, SoundVolumes, CreateVolume, PlaceIn, UnstageClears, Cleanup,
         DeleteVolume, Lookup, ValidDir;
    if step.UnstageAt? {
      UnstageEffects(cfg, env, w, id, step.dir);
    } else if step.Delete? {
      DeleteEffects(cfg, env, w, id);
      DeleteFinds(cfg, env, w, id);
    } else {
      assert Listed(w.pvs, id);
    }
  }

  lemma {:induction false} RunSaves(cfg: Config, env: Env, w: World, steps: seq<Step>)
    requires Lawful(env) && Initial(cfg, w) && ApartRun(cfg, env, w, steps)
    ensures SavedIsShown(cfg, Run(cfg, env, w, steps))
  {
    hide Do, Sound, Disjoint, Apart, Shown, Lawful;
    if steps != [] {
      var before := steps[..|steps| - 1];
      RunSaves(cfg, env, w, before);
      RunSound(cfg, env, w, before);
      RunDisjoint(cfg, env, w, before);
      SavedStep(cfg, env, Run(cfg, env, w, before), steps[|steps| - 1]);
    }
  }

  /** Staging a volume that shows `t` in MFS shows `t`, and works when none of its calls fails. */
  lemma {:induction false} StageOfShown(cfg: Config, env: Env, w: World, id: string, t: Tree, staging: Option<Tree>)
    requires Lawful(env) && Sound(cfg, env, w) && Shown(cfg, w, id, t)
    requires staging.Some? ==> ValidDir(staging.value)
    ensures
      && Ours(cfg, w.pvs, id)
      && var context := Owned(cfg, w.pvs, id).csi.value.attributes;
         var (s', out, r) := Stage(env, w.ipfs, context, staging);
         Get(context, CID) == "" ==>
           (r.Ok? ==> out == Some(t)) && (NoFailure(env, w.ipfs.clock, s'.clock) ==> r.Ok?)
  {
    hide Stage, Subtree, SoundVolumes, SoundSnapshots, Location;
    StageShowsContent(env, w.ipfs, Owned(cfg, w.pvs, id).csi.value.attributes, staging);
    StandsThere(w.ipfs.mfs, PathOf(cfg, w, id).value);
  }

  lemma {:induction false} StandsThere(fs: Tree, p: Path)
    ensures [] in Subtree(fs, p) <==> p in fs
  {
    assert p + [] == p;
  }

  /**
   In every run that keeps volumes apart, whichever node a read-write volume is staged on
   next, a successful stage shows exactly the tree it was last unstaged with.
   */
  lemma {:induction false} NextPodSeesLastUnstage(cfg: Config, env: Env, w: World, steps: seq<Step>, id: string,
                                                  staging: Option<Tree>)
    requires Lawful(env) && Initial(cfg, w) && ApartRun(cfg, env, w, steps)
    requires id in Run(cfg, env, w, steps).saved
    requires staging.Some? ==> ValidDir(staging.value)
    ensures
      var now := Run(cfg, env, w, steps);
      && Ours(cfg, now.pvs, id)
      && var context := Owned(cfg, now.pvs, id).csi.value.attributes;
         var (s', out, r) := Stage(env, now.ipfs, context, staging);
         Get(context, CID) == "" ==>
           (r.Ok? ==> out == Some(now.saved[id])) && (NoFailure(env, now.ipfs.clock, s'.clock) ==> r.Ok?)
  {
    hide Run, Stage, Lawful, Initial, Sound, Shown, ApartRun;
    var now := Run(cfg, env, w, steps);
    RunSound(cfg, env, w, steps);
    RunSaves(cfg, env, w, steps);
    StageOfShown(cfg, env, now, id, now.saved[id], staging);
  }
}
