/** The node RPCs: staging a volume's content locally, and bringing changes back. */
module NodeService {
  import opened Results
  import opened Paths
  import opened Trees
  import opened Ipfs
  import opened VolumeStore
  import opened Controller

  /** `ensureEmptyDirectory` under a file system that may fail before clearing or halfway. */
  function Emptied(env: Env, s: State, dest: Tree): (State, Tree, bool) {
    match env.reply(LocalCall, s.clock)
    case Refused => (Tick(s), dest, false)
    case Lost => (Tick(s), Torn(env, s.clock, EMPTY_DIR, dest), false)
    case Success => (Tick(s), EMPTY_DIR, true)
  }

  /** Go's `fetchContentToPath`: a CID wins over an MFS path; with neither there is nothing to do. */
  ghost function Fetch(env: Env, s: State, context: map<string, string>, dest: Tree): (State, Tree, Result<()>) {
    var cid, path := Get(context, CID), Get(context, MFS_PATH);
    if cid == "" && path == "" then (s, dest, Ok(()))
    else
      var (s1, clean, emptied) := Emptied(env, s, dest);
      if !emptied then (s1, clean, Err(Internal))
      else
        var (s2, out, ok) := if cid != "" then GetCID(env, s1, cid, clean) else Export(env, s1, path, clean);
        (s2, out, if ok then Ok(()) else Err(Internal))
  }

  /** The staging directory is made if it is missing. */
  ghost function Stage(env: Env, s: State, context: map<string, string>, staging: Option<Tree>)
    : (State, Option<Tree>, Result<()>)
  {
    var (s1, made) := Consult(env, s, LocalCall);
    if !made then (s1, staging, Err(Internal))
    else
      var (s2, out, r) := Fetch(env, s1, context, if staging.Some? then staging.value else EMPTY_DIR);
      (s2, Some(out), r)
  }

  /** The staged tree replaces the MFS tree of a listed read-write volume; otherwise nothing is imported. */
  ghost function Unstage(env: Env, s: State, pvs: seq<PersistentVolume>, id: string, staging: Option<Tree>)
    : (State, Result<()>)
  {
    var (s1, listed) := Consult(env, s, ListCall);
    match Lookup(pvs, listed, id)
    case Err(_) => (s1, Ok(()))
    case Ok(a) =>
      var path := Get(a.attributes, MFS_PATH);
      if path == "" || Get(a.attributes, READ_ONLY) == "true" then (s1, Ok(()))
      else
        var (s2, ok) := Import(env, s1, staging, path);
        (s2, if ok then Ok(()) else Err(Internal))
  }

  // ------------------------------------------------------------ round trips

  /** The content a volume context names can be served without help from other peers. */
  predicate Available(env: Env, s: State, context: map<string, string>) {
    var cid, path := Get(context, CID), Get(context, MFS_PATH);
    if cid != "" then Held(env, s, cid) else path == "" || (IsAbs(path) && Location(path) in s.mfs)
  }

  /** Whatever the staging directory held before, successful staging shows the volume's content and only that. */
  lemma {:induction false} StageShowsContent(env: Env, s: State, context: map<string, string>, staging: Option<Tree>)
    requires Lawful(env) && ValidDir(s.mfs)
    requires staging.Some? ==> ValidDir(staging.value)
    ensures
      var (s', out, r) := Stage(env, s, context, staging);
      var cid, path := Get(context, CID), Get(context, MFS_PATH);
      && s'.pins == s.pins && s'.mfs == s.mfs && s.blocks <= s'.blocks && s.clock <= s'.clock
      && (out.Some? ==> ValidDir(out.value))
      && (r.Ok? && cid != "" ==> out == Some(Materialized(env.content(cid))))
      && (r.Ok? && cid == "" && path != "" ==>
            Location(path) in s.mfs && out == Some(Materialized(Subtree(s.mfs, Location(path)))))
      && (r.Ok? && cid == "" && path == "" ==> out == Some(if staging.Some? then staging.value else EMPTY_DIR))
      && (NoFailure(env, s.clock, s'.clock) && Available(env, s, context) ==> r.Ok?)
      && (r.Err? ==> r == Err(Internal))
  {
    FetchShowsContent(env, Tick(s), context, if staging.Some? then staging.value else EMPTY_DIR);
  }

  lemma {:induction false} FetchShowsContent(env: Env, s: State, context: map<string, string>, dest: Tree)
    requires Lawful(env) && ValidDir(s.mfs) && ValidDir(dest)
    ensures
      var (s', out, r) := Fetch(env, s, context, dest);
      var cid, path := Get(context, CID), Get(context, MFS_PATH);
      && s'.pins == s.pins && s'.mfs == s.mfs && s.blocks <= s'.blocks && s.clock <= s'.clock
      && ValidDir(out)
      && (r.Ok? && cid != "" ==> out == Materialized(env.content(cid)))
      && (r.Ok? && cid == "" && path != "" ==>
            Location(path) in s.mfs && out == Materialized(Subtree(s.mfs, Location(path))))
      && (cid == "" && path == "" ==> r.Ok? && out == dest && s' == s)
      && (NoFailure(env, s.clock, s'.clock) && Available(env, s, context) ==> r.Ok?)
      && (r.Err? ==> r == Err(Internal))
  {
    hide GetCID, Export, Location, Subtree, Materialized, WriteNode;
    assert ValidDir(EMPTY_DIR);
    if Get(context, CID) != "" {
      DownloadResult(env, Tick(s), Get(context, CID));
    } else {
      ExportResult(env, Tick(s), Get(context, MFS_PATH));
    }
  }

  ghost predicate ReadWriteAt(pvs: seq<PersistentVolume>, id: string, pv: PersistentVolume, path: string) {
    && UniqueHandles(pvs) && pv in pvs && HasHandle(pv, id)
    && Get(pv.csi.value.attributes, CID) == "" && Get(pv.csi.value.attributes, MFS_PATH) == path
    && Get(pv.csi.value.attributes, READ_ONLY) != "true"
    && IsAbs(path)
  }

  /** An unstage starting here finds the volume: by name, or because the list call works. */
  predicate Finds(env: Env, s: State, pvs: seq<PersistentVolume>, id: string) {
    Lookup(pvs, env.reply(ListCall, s.clock).Success?, id).Ok?
  }

  /** The removal an unstage makes, its second call, takes effect. */
  predicate UnstageClears(env: Env, s: State, p: Path) { Clears(env, s.clock + 1, p) }

  /** The directory an unstage makes anew, its third call, is made. */
  predicate UnstageRemakes(env: Env, s: State) { !env.reply(MkdirCall, s.clock + 2).Refused? }

  /** Unstaging a read-write volume is importing its staging directory if it is found, and nothing otherwise. */
  lemma {:induction false} UnstageImports(env: Env, s: State, pvs: seq<PersistentVolume>, id: string,
                                          pv: PersistentVolume, path: string, staging: Option<Tree>)
    requires ReadWriteAt(pvs, id, pv, path)
    ensures env.reply(ListCall, s.clock).Success? ==> Finds(env, s, pvs, id)
    ensures
      Unstage(env, s, pvs, id, staging) ==
      if Finds(env, s, pvs, id) then
        var (s', ok) := Import(env, Tick(s), staging, path);
        (s', if ok then Ok(()) else Err(Internal))
      else (Tick(s), Ok(()))
  {
    hide Import;
    LookupFinds(pvs, env.reply(ListCall, s.clock).Success?, id, pv);
  }

  /** Where an old tree stands at its target, an import can always make the directory again. */
  lemma {:induction false} Remakeable(env: Env, s: State, p: Path)
    requires ValidDir(s.mfs) && IsDir(s.mfs, p)
    ensures Remakes(env, s, p) <==> !env.reply(MkdirCall, s.clock + 1).Refused?
  {
    hide CanMkdir, ValidTree, Outside;
    MkdirAgain(s.mfs, p);
    MakeableAgain(s.mfs, p);
  }

  /**
   When the volume's tree survives an unstage, successful or not. MFS ends up with what the
   import got done of the staging directory, up to some point of the walk and all of it on
   success, in place of the old tree or, where that was not removed, over it; or with just
   the removal, if the directory is not even made. So MFS is kept exactly if that is the old
   tree, or part of it; or if the old tree was not removed. Where it was, the replies alone
   decide how far the walk got. Without a staging directory the unstage fails with nothing
   got done.
   */
  lemma {:induction false} UnstageKeepsExactly(env: Env, s: State, pvs: seq<PersistentVolume>, id: string,
                                               pv: PersistentVolume, path: string, staging: Option<Tree>)
    returns (m: nat)
    requires Lawful(env) && ValidDir(s.mfs) && ReadWriteAt(pvs, id, pv, path) && IsDir(s.mfs, Location(path))
    requires staging.Some? ==> ValidDir(staging.value)
    ensures staging.Some? ==> m <= |Walk(staging.value)|
    ensures
      var p := Location(path);
      var (tree, done) := (Subtree(s.mfs, p), Done(staging, m));
      var (cleared, remade) := (UnstageClears(env, s, p), UnstageRemakes(env, s));
      var (s', r) := Unstage(env, s, pvs, id, staging);
      s'.pins == s.pins &&
      if !Finds(env, s, pvs, id) then s'.mfs == s.mfs && r.Ok?
      else
        && s'.mfs == Landed(s.mfs, p, cleared, remade, done)
        && (s'.mfs == s.mfs <==> if !remade then !cleared else if cleared then done == tree else LiesIn(done, tree))
        && (cleared && remade && staging.Some? ==> m == Reached(env, s.clock + 2, staging.value))
        && (r.Ok? ==> staging.Some? && remade && m == |Walk(staging.value)| && done == staging.value)
  {
    hide Lookup, Import, Landed, Location, Subtree, Arrived, CanMkdir, LiesIn, Reached, Remakes;
    var p := Location(path);
    UnstageImports(env, s, pvs, id, pv, path, staging);
    Remakeable(env, Tick(s), p);
    m := ImportLeaves(env, Tick(s), staging, path);
    DoneIsDir(staging, m);
    LandedKeeps(s.mfs, p, UnstageClears(env, s, p), UnstageRemakes(env, s), Done(staging, m));
  }

  lemma {:induction false} DoneIsDir(local: Option<Tree>, m: nat)
    requires local.Some? ==> IsDir(local.value, []) && m <= |Walk(local.value)|
    ensures IsDir(Done(local, m), [])
    ensures local.Some? && m == |Walk(local.value)| ==> Done(local, m) == local.value
  {
    hide Arrived;
    if local.Some? {
      ArrivedPart(local.value, m);
      ArrivedEnds(local.value);
    }
  }

  /**
   So checking the directory beforehand is not enough: when the old tree is removed and the
   directory then not made, the volume is gone, whatever was staged. The call fails.
   */
  lemma {:induction false} UnstageCanLoseAnyTree(env: Env, s: State, pvs: seq<PersistentVolume>, id: string,
                                                 pv: PersistentVolume, path: string, t: Tree)
    requires Lawful(env) && ValidDir(s.mfs) && ReadWriteAt(pvs, id, pv, path) && ValidDir(t)
    requires Finds(env, s, pvs, id) && UnstageClears(env, s, Location(path)) && !UnstageRemakes(env, s)
    ensures
      var (s', r) := Unstage(env, s, pvs, id, Some(t));
      r == Err(Internal) && Subtree(s'.mfs, Location(path)) == map[]
  {
    hide Lookup, Import, Overlay, Location, Subtree, Arrived, CanMkdir, Reached;
    UnstageImports(env, s, pvs, id, pv, path, Some(t));
    var m := ImportLeaves(env, Tick(s), Some(t), path);
    NothingAt(s.mfs, Location(path));
  }

  /** What staging a read-write volume whose tree is `tree` leaves in its directory, call by call. */
  function LeftInStaging(env: Env, s: State, tree: Tree, staging: Option<Tree>): Option<Tree> {
    var dest := if staging.Some? then staging.value else EMPTY_DIR;
    if !env.reply(LocalCall, s.clock).Success? then staging
    else match env.reply(LocalCall, s.clock + 1)
      case Refused => Some(dest)
      case Lost => Some(Torn(env, s.clock + 1, EMPTY_DIR, dest))
      case Success =>
        if !env.reply(MfsStatCall, s.clock + 2).Success? then Some(EMPTY_DIR)
        else match env.reply(GetCall, s.clock + 3)
          case Refused => Some(EMPTY_DIR)
          case Lost => Some(Torn(env, s.clock + 3, EMPTY_DIR, tree))
          case Success => Some(tree)
  }

  /** Staging, for every schedule: what it leaves behind, and that it succeeds exactly if its four calls do. */
  lemma {:induction false} StageLeaves(env: Env, s: State, context: map<string, string>, path: string,
                                       staging: Option<Tree>)
    requires Lawful(env) && ValidDir(s.mfs) && IsAbs(path) && IsDir(s.mfs, Location(path))
    requires Get(context, CID) == "" && Get(context, MFS_PATH) == path
    ensures
      var (s', out, r) := Stage(env, s, context, staging);
      && s'.mfs == s.mfs && s'.pins == s.pins
      && out == LeftInStaging(env, s, Subtree(s.mfs, Location(path)), staging)
      && (r.Ok? ==> out == Some(Subtree(s.mfs, Location(path))))
      && (out.Some? && (staging.Some? ==> ValidDir(staging.value)) ==> ValidDir(out.value))
      && (r.Ok? <==>
            && env.reply(LocalCall, s.clock).Success? && env.reply(LocalCall, s.clock + 1).Success?
            && env.reply(MfsStatCall, s.clock + 2).Success? && env.reply(GetCall, s.clock + 3).Success?)
  {
    hide Location, Subtree, Export, Torn, ValidTree;
    ExportLeaves(env, Tick(Tick(s)), path);
    SubtreeValid(s.mfs, Location(path));
    BothEnds(Subtree(s.mfs, Location(path)));
  }

  lemma {:induction false} ExportLeaves(env: Env, s: State, path: string)
    requires Lawful(env) && ValidDir(s.mfs) && IsAbs(path) && IsDir(s.mfs, Location(path))
    ensures
      var tree := Subtree(s.mfs, Location(path));
      var (s', out, ok) := Export(env, s, path, EMPTY_DIR);
      && s'.mfs == s.mfs && s'.pins == s.pins
      && (ok <==> env.reply(MfsStatCall, s.clock).Success? && env.reply(GetCall, s.clock + 1).Success?)
      && out == if !env.reply(MfsStatCall, s.clock).Success? then EMPTY_DIR
                else match env.reply(GetCall, s.clock + 1)
                  case Refused => EMPTY_DIR
                  case Lost => Torn(env, s.clock + 1, EMPTY_DIR, tree)
                  case Success => tree
  {
    hide Location, Subtree, WriteNode, Torn;
    var p := Location(path);
    SubtreeValid(s.mfs, p);
    WriteIntoEmpty(Subtree(s.mfs, p));
    assert Held(env, Tick(s), env.cidOf(Subtree(s.mfs, p)));
  }

  /**
   Stage, change nothing, unstage, for every schedule and whatever the stage reported: an
   unstage that clears the old tree and succeeds keeps MFS exactly if the stage had left the
   volume's tree in the directory. A successful stage always has.
   */
  lemma {:induction false} StageUnstageRoundTrip(env: Env, s: State, pvs: seq<PersistentVolume>, id: string,
                                                 pv: PersistentVolume, path: string, staging: Option<Tree>)
    requires Lawful(env) && ValidDir(s.mfs) && ReadWriteAt(pvs, id, pv, path) && IsDir(s.mfs, Location(path))
    requires staging.Some? ==> ValidDir(staging.value)
    ensures
      var tree := Subtree(s.mfs, Location(path));
      var (s1, staged, r1) := Stage(env, s, pv.csi.value.attributes, staging);
      var (s2, r2) := Unstage(env, s1, pvs, id, staged);
      && s2.pins == s.pins
      && (r1.Ok? ==> LeftInStaging(env, s, tree, staging) == Some(tree))
      && (r2.Ok? && Finds(env, s1, pvs, id) && UnstageClears(env, s1, Location(path)) ==>
            (s2.mfs == s.mfs <==> LeftInStaging(env, s, tree, staging) == Some(tree)))
  {
    hide Stage, Unstage, Finds, Location, Subtree, LiesIn, LeftInStaging, UnstageClears, ValidTree, UniqueHandles;
    StageLeaves(env, s, pv.csi.value.attributes, path, staging);
    var (s1, staged, _) := Stage(env, s, pv.csi.value.attributes, staging);
    var m := UnstageKeepsExactly(env, s1, pvs, id, pv, path, staged);
  }

  /** A successful unstage whose removal takes effect leaves the staged tree in MFS. */
  lemma {:induction false} UnstageLands(env: Env, s: State, pvs: seq<PersistentVolume>, id: string,
                                        pv: PersistentVolume, path: string, t: Tree)
    requires Lawful(env) && ValidDir(s.mfs) && ReadWriteAt(pvs, id, pv, path) && ValidDir(t)
    requires Finds(env, s, pvs, id) && UnstageClears(env, s, Location(path))
    ensures
      var (s', r) := Unstage(env, s, pvs, id, Some(t));
      && ValidDir(s'.mfs)
      && (r.Ok? ==> Subtree(s'.mfs, Location(path)) == t)
      && (NoFailure(env, s.clock, s'.clock) && Free(s.mfs, Location(path)) ==> r.Ok?)
  {
    UnstageImports(env, s, pvs, id, pv, path, Some(t));
    ImportMirrors(env, Tick(s), t, path);
  }

  /**
   A pod's changes arrive: a successful unstage whose removal takes effect, followed by a
   successful stage anywhere, shows the tree that was unstaged.
   */
  lemma {:induction false} UnstageStageRoundTrip(env: Env, s: State, pvs: seq<PersistentVolume>, id: string,
                                                 pv: PersistentVolume, path: string, t: Tree, elsewhere: Option<Tree>)
    requires Lawful(env) && ValidDir(s.mfs) && ReadWriteAt(pvs, id, pv, path) && ValidDir(t)
    requires elsewhere.Some? ==> ValidDir(elsewhere.value)
    requires Finds(env, s, pvs, id) && UnstageClears(env, s, Location(path))
    ensures
      var (s1, r1) := Unstage(env, s, pvs, id, Some(t));
      var (s2, staged, r2) := Stage(env, s1, pv.csi.value.attributes, elsewhere);
      r1.Ok? && r2.Ok? ==> staged == Some(t)
  {
    UnstageLands(env, s, pvs, id, pv, path, t);
    StageShowsContent(env, Unstage(env, s, pvs, id, Some(t)).0, pv.csi.value.attributes, elsewhere);
  }

  /**
   An unstage that reports an import error can simply be repeated: the staging tree is not
   touched, and a repetition none of whose calls fails succeeds, and MFS shows it.
   */
  lemma {:induction false} FailedUnstageRecovers(env: Env, s: State, pvs: seq<PersistentVolume>, id: string,
                                                 pv: PersistentVolume, path: string, t: Tree)
    requires Lawful(env) && ValidDir(s.mfs) && ReadWriteAt(pvs, id, pv, path) && ValidDir(t)
    requires Unstage(env, s, pvs, id, Some(t)).1.Err?
    ensures
      var p := Location(path);
      var (s1, _) := Unstage(env, s, pvs, id, Some(t));
      var (s2, r2) := Unstage(env, s1, pvs, id, Some(t));
      && ValidDir(s1.mfs)
      && (NoFailure(env, s1.clock, s2.clock) && p != [] && Free(s.mfs, p) ==>
            r2 == Ok(()) && Subtree(s2.mfs, p) == t)
  {
    hide Lookup, Import, Location, Subtree, Free;
    var p := Location(path);
    UnstageImports(env, s, pvs, id, pv, path, Some(t));
    ImportResult(env, Tick(s), t, path);
    var (s1, _) := Unstage(env, s, pvs, id, Some(t));
    UnstageImports(env, s1, pvs, id, pv, path, Some(t));
    ImportTakesTime(env, Tick(s1), Some(t), path);
    if p != [] && Free(s.mfs, p) {
      StillFree(s.mfs, s1.mfs, p);
      ImportResult(env, Tick(s1), t, path);
      if Clears(env, s1.clock + 1, p) {
        ImportMirrors(env, Tick(s1), t, path);
      }
    }
  }

  // ------------------------------------------------------------ where the round trip breaks

  /**
   The failing family of `StageUnstageRoundTrip` is real: staging that fails after clearing
   the directory, with nothing downloaded yet, leaves it empty, and a successful unstage
   then replaces the volume's tree by an empty one.
   */
  lemma {:induction false} UnstageAfterFailedStageErases(env: Env, s: State, pvs: seq<PersistentVolume>, id: string,
                                                         pv: PersistentVolume, path: string, staging: Option<Tree>)
    requires Lawful(env) && ValidDir(s.mfs) && ReadWriteAt(pvs, id, pv, path) && IsDir(s.mfs, Location(path))
    requires env.reply(LocalCall, s.clock).Success? && env.reply(LocalCall, s.clock + 1).Success?
    requires !env.reply(MfsStatCall, s.clock + 2).Success? || env.reply(GetCall, s.clock + 3).Refused?
    ensures
      var (s1, staged, r1) := Stage(env, s, pv.csi.value.attributes, staging);
      var (s2, r2) := Unstage(env, s1, pvs, id, staged);
      && r1.Err? && staged == Some(EMPTY_DIR)
      && (Finds(env, s1, pvs, id) && UnstageClears(env, s1, Location(path)) ==>
            && (r2.Ok? ==> Subtree(s2.mfs, Location(path)) == EMPTY_DIR)
            && (NoFailure(env, s1.clock, s2.clock) ==> r2.Ok?))
  {
    hide Stage, Unstage, Finds, Location, Subtree, CanMkdir;
    StageLeaves(env, s, pv.csi.value.attributes, path, staging);
    var (s1, staged, r1) := Stage(env, s, pv.csi.value.attributes, staging);
    MakeableAgain(s.mfs, Location(path));
    assert ValidDir(EMPTY_DIR);
    if Finds(env, s1, pvs, id) && UnstageClears(env, s1, Location(path)) {
      UnstageLands(env, s1, pvs, id, pv, path, EMPTY_DIR);
    }
  }

  /** Unstaging when the staging directory is gone fails, but only after the volume's tree was replaced. */
  lemma {:induction false} UnstageWithoutStagingErases(env: Env, s: State, pvs: seq<PersistentVolume>, id: string,
                                                       pv: PersistentVolume, path: string)
    requires ValidDir(s.mfs) && ReadWriteAt(pvs, id, pv, path) && IsDir(s.mfs, Location(path))
    requires Finds(env, s, pvs, id) && UnstageClears(env, s, Location(path))
    requires UnstageRemakes(env, s)
    ensures
      var (s', r) := Unstage(env, s, pvs, id, None);
      r == Err(Internal) && Subtree(s'.mfs, Location(path)) == EMPTY_DIR
  {
    hide Import, Unstage, Overlay, Subtree, Location, UniqueHandles, ValidTree;
    var p := Location(path);
    UnstageImports(env, s, pvs, id, pv, path, None);
    Remakeable(env, Tick(s), p);
    var m := ImportLeaves(env, Tick(s), None, path);
    LandedShown(s.mfs, p, true, true, EMPTY_DIR);
    UnionIsRight(map[], EMPTY_DIR);
  }
}
