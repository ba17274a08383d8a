/** Exact reference counting: when pinning works, the pin set is the set of referenced CIDs. */
module ExactPins {
  import opened Results
  import opened Counting
  import opened Paths
  import opened Trees
  import opened Ipfs
  import opened VolumeStore
  import opened SnapshotStore
  import opened Controller
  import opened NodeService
  import opened Lifecycle
  import opened World
  import opened Soundness
  import opened Pins

  /** Pin, unpin and list calls work in this stretch of time; everything else may still fail. */
  ghost predicate PinningWorks(env: Env, from: nat, to: nat) {
    forall n :: from <= n < to ==>
      env.reply(PinCall, n).Success? && env.reply(UnpinCall, n).Success? && env.reply(ListCall, n).Success?
  }

  ghost predicate PinningWorksFor(cfg: Config, env: Env, w: World, step: Step) {
    PinningWorks(env, w.ipfs.clock, Do(cfg, env, w, step).ipfs.clock)
  }

  ghost predicate Exact(cfg: Config, w: World) {
    forall cid :: cid in w.ipfs.pins <==> Referenced(cfg, w, cid)
  }

  /** If nothing changes for any other CID, exactness afterwards is a matter of this one. */
  lemma {:induction false} OneMatters(cfg: Config, w: World, w': World, c: string)
    requires Exact(cfg, w)
    requires
      forall cid :: cid != c ==>
        (cid in w'.ipfs.pins <==> cid in w.ipfs.pins) && (Referenced(cfg, w', cid) <==> Referenced(cfg, w, cid))
    ensures Exact(cfg, w') <==> (c in w'.ipfs.pins <==> Referenced(cfg, w', c))
  {
    hide Referenced;
  }

  lemma {:induction false} SameObjects(cfg: Config, w: World, w': World)
    requires w'.pvs == w.pvs && w'.vscs == w.vscs && w'.ipfs.pins == w.ipfs.pins && Exact(cfg, w)
    ensures Exact(cfg, w')
  {
    forall cid ensures Referenced(cfg, w', cid) <==> Referenced(cfg, w, cid) {
    }
  }

  lemma {:induction false} SameVolumes(cfg: Config, w: World, w': World, cid: string)
    requires (forall pv :: pv in w'.pvs <==> pv in w.pvs) && w'.vscs == w.vscs
    ensures Referenced(cfg, w', cid) <==> Referenced(cfg, w, cid)
  {
  }

  lemma {:induction false} OneMoreVolume(cfg: Config, w: World, w': World, pv: PersistentVolume, cid: string)
    requires w'.pvs == w.pvs + [pv] && w'.vscs == w.vscs
    ensures Referenced(cfg, w', cid) <==> Referenced(cfg, w, cid) || Keeps(cfg, pv, cid)
  {
    hide Keeps, HoldsCid;
    assert forall x :: x in w'.pvs <==> x in w.pvs || x == pv;
  }

  lemma {:induction false} OneMoreSnapshot(cfg: Config, w: World, w': World, v: SnapshotContent, cid: string)
    requires w'.vscs == w.vscs + [v] && w'.pvs == w.pvs
    ensures Referenced(cfg, w', cid) <==> Referenced(cfg, w, cid) || HoldsCid(v, cfg.driver, cid)
  {
    hide Keeps, HoldsCid;
    assert forall x :: x in w'.vscs <==> x in w.vscs || x == v;
  }

  // ------------------------------------------------------------ creating volumes

  /** The pin call of a creation does what it reports, as far as the policy cares. */
  ghost predicate CreateTight(cfg: Config, env: Env, w: World, req: CreateVolumeRequest) {
    !Listed(w.pvs, VolumeId(req.name)) && ReachesPin(env, w.ipfs, req) && Get(req.parameters, CID) !in w.ipfs.pins ==>
      match PinReply(env, w.ipfs)
      case Success => true
      case Lost => cfg.bestEffort
      case Refused => !cfg.bestEffort
  }

  /**
   A creation keeps the pin set exact exactly if its pin call works, is not made, or is not
   needed; or if it fails without effect under the strict policy, or with effect under the
   best-effort policy.
   */
  lemma {:induction false} CreateExact(cfg: Config, env: Env, w: World, req: CreateVolumeRequest, pvName: string)
    requires Exact(cfg, w)
    ensures Exact(cfg, DoCreate(cfg, env, w, req, pvName)) <==> CreateTight(cfg, env, w, req)
  {
    hide CreateVolume, RequestedPath, WriteTarget, Referenced, Reachable, VolumeId, Validate;
    if !Listed(w.pvs, VolumeId(req.name)) {
      var (c, w') := (Get(req.parameters, CID), DoCreate(cfg, env, w, req, pvName));
      var (s, r) := CreateVolume(cfg, env, w.ipfs, req);
      CreatePins(cfg, env, w.ipfs, req);
      CreatedContext(cfg, env, w.ipfs, req);
      forall cid ensures Referenced(cfg, w', cid) <==> Referenced(cfg, w, cid) || (r.Ok? && Adds(req, cid)) {
        if r.Ok? {
          OneMoreVolume(cfg, w, w', Provisioned(cfg, r.value, pvName), cid);
        } else {
          SameVolumes(cfg, w, w', cid);
        }
      }
      OneMatters(cfg, w, w', c);
    }
  }

  /** The reference a created volume adds. */
  predicate Adds(req: CreateVolumeRequest, cid: string) {
    cid != "" && cid == Get(req.parameters, CID) && PinningEnabled(req.parameters)
  }

  // ------------------------------------------------------------ deleting volumes

  /** A count that starts at this moment is answered. */
  predicate Counts(cfg: Config, env: Env, n: nat) {
    env.reply(ListCall, n).Success? && (cfg.snapshots ==> env.reply(ListCall, n + 1).Success?)
  }

  /** The unpin that follows it takes effect. */
  predicate Unpins(cfg: Config, env: Env, n: nat) {
    !env.reply(UnpinCall, n + if cfg.snapshots then 2 else 1).Refused?
  }

  /** What is pinned after a cleanup, for every schedule. */
  lemma {:induction false} CleanupExact(cfg: Config, env: Env, s: State, pvs: seq<PersistentVolume>,
                                        vscs: seq<SnapshotContent>, a: VolumeAttributes)
    ensures
      var cid := Get(a.attributes, CID);
      Cleanup(cfg, env, s, pvs, vscs, a).pins ==
      if cid != "" && PinningEnabled(a.attributes) && VolumeRefs(pvs, cfg.driver, cid, a.volumeId) == 0
         && (cfg.snapshots ==> SnapshotRefs(vscs, cfg.driver, cid, false) == 0)
         && Counts(cfg, env, s.clock) && Unpins(cfg, env, s.clock)
      then s.pins - {cid} else s.pins
  {
    hide VolumeRefs, SnapshotRefs, Location, IsAbs;
  }

  /** Something besides the volume `id` refers to the CID. */
  ghost predicate NeededElsewhere(cfg: Config, w: World, id: string, cid: string) {
    (exists pv :: pv in w.pvs && Keeps(cfg, pv, cid) && !HasHandle(pv, id)) || SnapshotHolds(cfg, w, cid)
  }

  /** A deletion that finds its volume needs the count and the unpin to work, if this was the last reference. */
  ghost predicate DeleteTight(cfg: Config, env: Env, w: World, id: string) {
    Ours(cfg, w.pvs, id) && Finds(env, w.ipfs, w.pvs, id) ==>
      var pv := Owned(cfg, w.pvs, id);
      var cid := Get(pv.csi.value.attributes, CID);
      || !Keeps(cfg, pv, cid) || NeededElsewhere(cfg, w, id, cid)
      || (Counts(cfg, env, w.ipfs.clock + 1) && Unpins(cfg, env, w.ipfs.clock + 1))
  }

  /**
   A deletion keeps the pin set exact exactly if it does not find the volume, the volume did
   not keep a pin, something else needs it, or every listing of the count is answered and the
   unpin takes effect. Otherwise the object goes and its pin stays.
   */
  lemma {:induction false} DeleteExact(cfg: Config, env: Env, w: World, id: string)
    requires Orderly(cfg, w) && Exact(cfg, w)
    ensures Exact(cfg, DoDelete(cfg, env, w, id)) <==> DeleteTight(cfg, env, w, id)
  {
    hide DeleteVolume, Cleanup, VolumeRefs, SnapshotRefs, SoundVolumes, Referenced, Counts, Unpins, NeededElsewhere,
         Lookup;
    var w' := DoDelete(cfg, env, w, id);
    if Ours(cfg, w.pvs, id) {
      var pv := Owned(cfg, w.pvs, id);
      var (a, c) := (ToAttributes(pv), Get(pv.csi.value.attributes, CID));
      DeleteEffects(cfg, env, w, id);
      DeleteFinds(cfg, env, w, id);
      if Finds(env, w.ipfs, w.pvs, id) {
        CleanupExact(cfg, env, Tick(w.ipfs), w.pvs, w.vscs, a);
        LastReference(cfg, w, id, c);
        forall cid ensures cid != c || !Keeps(cfg, pv, c) ==> (Referenced(cfg, w', cid) <==> Referenced(cfg, w, cid)) {
          if cid != c || !Keeps(cfg, pv, c) {
            OthersKeepTheirs(cfg, w, w', id, pv, cid);
          }
        }
        AfterDelete(cfg, w, w', id, pv);
        OneMatters(cfg, w, w', c);
      } else {
        SameObjects(cfg, w, w');
      }
    } else if !Listed(w.pvs, id) {
      NotListedEffects(cfg, env, w, id);
      assert forall pv :: pv in w'.pvs <==> pv in w.pvs;
      forall cid ensures Referenced(cfg, w', cid) <==> Referenced(cfg, w, cid) {
        SameVolumes(cfg, w, w', cid);
      }
      OneMatters(cfg, w, w', "");
    }
  }

  /** The counts are zero exactly if nothing else needs the CID. */
  lemma {:induction false} LastReference(cfg: Config, w: World, id: string, cid: string)
    requires Orderly(cfg, w)
    ensures
      cid != "" ==>
        (NeededElsewhere(cfg, w, id, cid) <==>
           VolumeRefs(w.pvs, cfg.driver, cid, id) > 0
           || (cfg.snapshots && SnapshotRefs(w.vscs, cfg.driver, cid, false) > 0))
  {
    hide VolumeRefs, SnapshotRefs;
    if cid != "" {
      VolumeRefsMeaning(cfg, w.pvs, cid, id);
      SnapshotRefsMeaning(w.vscs, cfg.driver, cid);
    }
  }

  lemma {:induction false} OthersKeepTheirs(cfg: Config, w: World, w': World, id: string, pv: PersistentVolume,
                                            cid: string)
    requires SoundVolumes(cfg, w.pvs) && pv in w.pvs && HasHandle(pv, id) && !Keeps(cfg, pv, cid)
    requires w'.pvs == WithoutHandle(w.pvs, id) && w'.vscs == w.vscs
    ensures Referenced(cfg, w', cid) <==> Referenced(cfg, w, cid)
  {
    forall other | other in w.pvs && Keeps(cfg, other, cid) ensures other in w'.pvs {
      if HasHandle(other, id) {
        OneOwner(w.pvs, other, pv, id);
      }
    }
  }

  lemma {:induction false} AfterDelete(cfg: Config, w: World, w': World, id: string, pv: PersistentVolume)
    requires Exact(cfg, w) && pv in w.pvs && HasHandle(pv, id)
    requires w'.pvs == WithoutHandle(w.pvs, id) && w'.vscs == w.vscs
    ensures
      forall cid :: Keeps(cfg, pv, cid) ==>
        cid in w.ipfs.pins && (Referenced(cfg, w', cid) <==> NeededElsewhere(cfg, w, id, cid))
  {
    forall cid | Keeps(cfg, pv, cid)
      ensures cid in w.ipfs.pins && (Referenced(cfg, w', cid) <==> NeededElsewhere(cfg, w, id, cid))
    {
      assert Referenced(cfg, w, cid);
    }
  }

  // ------------------------------------------------------------ snapshots

  /** The CID a snapshot call resolves gets pinned if it is recorded, and is not if nothing records it. */
  ghost predicate TakeTight(cfg: Config, env: Env, w: World, req: CreateSnapshotRequest, vscName: string) {
    Ours(cfg, w.pvs, req.sourceVolumeId) && !(exists v :: v in w.vscs && v.name == vscName)
    && Resolves(cfg, env, w, req) && env.cidOf(SourceTree(cfg, w, req.sourceVolumeId)) !in w.ipfs.pins ==>
      (SnapshotPinReply(env, w.ipfs).Refused? <==> !cfg.snapshots)
  }

  /**
   Taking a snapshot keeps the pin set exact exactly if the call gets to no CID, the CID was
   pinned already, or it is pinned and recorded or neither.
   */
  lemma {:induction false} TakeExact(cfg: Config, env: Env, w: World, req: CreateSnapshotRequest, vscName: string)
    requires Lawful(env) && Sound(cfg, env, w) && Exact(cfg, w)
    ensures Exact(cfg, DoTake(cfg, env, w, req, vscName)) <==> TakeTight(cfg, env, w, req, vscName)
  {
    hide CreateSnapshot, Sound, SourceTree, Recorded, Referenced, Resolves, HoldsCid;
    if Ours(cfg, w.pvs, req.sourceVolumeId) && !(exists v :: v in w.vscs && v.name == vscName) {
      TakeEffects(cfg, env, w, req);
      var (s, r) := CreateSnapshot(env, w.ipfs, w.pvs, req);
      var w' := DoTake(cfg, env, w, req, vscName);
      if r.Ok? {
        forall cid
          ensures Referenced(cfg, w', cid) <==> Referenced(cfg, w, cid) || (cfg.snapshots && cid == r.value.id)
        {
          AfterTake(cfg, w, w', r.value, vscName, cid);
        }
        OneMatters(cfg, w, w', r.value.id);
      } else {
        SameObjects(cfg, w, w');
      }
    }
  }

  lemma {:induction false} AfterTake(cfg: Config, w: World, w': World, v: Snapshot, vscName: string, cid: string)
    requires w'.pvs == w.pvs
    requires w'.vscs == if cfg.snapshots then w.vscs + [Recorded(cfg, v, vscName)] else w.vscs
    ensures Referenced(cfg, w', cid) <==> Referenced(cfg, w, cid) || (cfg.snapshots && cid == v.id)
  {
    hide Referenced, Recorded;
    RecordedHandle(cfg, v, vscName);
    if cfg.snapshots {
      OneMoreSnapshot(cfg, w, w', Recorded(cfg, v, vscName), cid);
    } else {
      SameVolumes(cfg, w, w', cid);
    }
  }

  /** A snapshot deletion, for every schedule: it succeeds exactly if the count is answered. */
  lemma {:induction false} DropPins(cfg: Config, env: Env, w: World, cid: string)
    requires cfg.snapshots && cid != ""
    ensures
      var (s', r) := DeleteSnapshot(cfg, env, w.ipfs, w.pvs, w.vscs, cid);
      && (r.Ok? <==> Counts(cfg, env, w.ipfs.clock))
      && s'.pins ==
         if Counts(cfg, env, w.ipfs.clock) && Unpins(cfg, env, w.ipfs.clock)
            && VolumeRefs(w.pvs, cfg.driver, cid, "") == 0 && SnapshotRefs(w.vscs, cfg.driver, cid, true) == 0
         then w.ipfs.pins - {cid} else w.ipfs.pins
  {
    hide VolumeRefs, SnapshotRefs;
  }

  /** Something besides the snapshot refers to its CID. */
  ghost predicate NeededBesides(cfg: Config, w: World, v: SnapshotContent) {
    || VolumeHolds(cfg, w, Handle(v))
    || exists u :: u in w.vscs && HoldsCid(u, cfg.driver, Handle(v)) && u.name != v.name
  }

  /** A deletion whose count is answered needs the unpin to work, if this was the last reference. */
  ghost predicate DropTight(cfg: Config, env: Env, w: World, v: SnapshotContent) {
    !Counts(cfg, env, w.ipfs.clock) || NeededBesides(cfg, w, v) || Unpins(cfg, env, w.ipfs.clock)
  }

  /**
   Deleting a snapshot keeps the pin set exact exactly if the count fails, and with it the
   call, something else needs the CID, or the unpin takes effect.
   */
  lemma {:induction false} DropExact(cfg: Config, env: Env, w: World, v: SnapshotContent)
    requires Sound(cfg, env, w) && Exact(cfg, w) && v in w.vscs && v.driver == cfg.driver
    ensures Exact(cfg, DoDrop(cfg, env, w, v.name)) <==> DropTight(cfg, env, w, v)
  {
    hide DeleteSnapshot, SoundVolumes, ValidDir, VolumeRefs, SnapshotRefs, Handle, Referenced, NeededBesides, Counts,
         Unpins, HoldsCid;
    assert OursNamed(cfg, v, v.name);
    var u := Dropped(cfg, env, w, v.name);
    SameName(w.vscs, u, v);
    var (h, w') := (Handle(v), DoDrop(cfg, env, w, v.name));
    HandleNotEmpty(cfg, env, w, v);
    assert SoundSnapshot(cfg, env, v, w.taken);
    DropPins(cfg, env, w, h);
    LastSnapshot(cfg, env, w, v);
    if Counts(cfg, env, w.ipfs.clock) {
      forall cid
        ensures Referenced(cfg, w', cid) <==> if cid == h then NeededBesides(cfg, w, v) else Referenced(cfg, w, cid)
      {
        AfterDrop(cfg, w, w', v, cid);
      }
      OneMatters(cfg, w, w', h);
    } else {
      assert u == v && DeleteSnapshot(cfg, env, w.ipfs, w.pvs, w.vscs, h).1.Err?;
      assert w' == w.(ipfs := DeleteSnapshot(cfg, env, w.ipfs, w.pvs, w.vscs, h).0);
      SameObjects(cfg, w, w');
    }
  }

  lemma {:induction false} LastSnapshot(cfg: Config, env: Env, w: World, v: SnapshotContent)
    requires Sound(cfg, env, w) && Exact(cfg, w) && v in w.vscs && v.driver == cfg.driver && Handle(v) != ""
    ensures Handle(v) in w.ipfs.pins
    ensures
      NeededBesides(cfg, w, v) <==>
        VolumeRefs(w.pvs, cfg.driver, Handle(v), "") > 0 || SnapshotRefs(w.vscs, cfg.driver, Handle(v), true) > 0
  {
    hide VolumeRefs, SnapshotRefs, Handle, ValidDir;
    assert HoldsCid(v, cfg.driver, Handle(v));
    assert Referenced(cfg, w, Handle(v));
    VolumeRefsMeaning(cfg, w.pvs, Handle(v), "");
    OtherSnapshotsMeaning(w.vscs, cfg.driver, Handle(v), v);
  }

  lemma {:induction false} AfterDrop(cfg: Config, w: World, w': World, v: SnapshotContent, cid: string)
    requires DistinctNames(w.vscs) && v in w.vscs && v.driver == cfg.driver
    requires w'.pvs == w.pvs && w'.vscs == WithoutName(w.vscs, v.name)
    ensures
      Referenced(cfg, w', cid) <==> if cid == Handle(v) then NeededBesides(cfg, w, v) else Referenced(cfg, w, cid)
  {
    hide Handle;
    if cid != Handle(v) {
      forall u | u in w.vscs && HoldsCid(u, cfg.driver, cid) ensures u in w'.vscs {
        SameName(w.vscs, u, v);
      }
    }
  }

  /** The snapshot a deletion picks, with the call it leads to. */
  lemma {:induction false} Dropped(cfg: Config, env: Env, w: World, vscName: string) returns (v: SnapshotContent)
    requires exists v :: v in w.vscs && OursNamed(cfg, v, vscName)
    ensures v in w.vscs && OursNamed(cfg, v, vscName)
    ensures
      var (s, r) := DeleteSnapshot(cfg, env, w.ipfs, w.pvs, w.vscs, Handle(v));
      DoDrop(cfg, env, w, vscName) ==
      if r.Err? then w.(ipfs := s)
      else w.(ipfs := s, vscs := WithoutName(w.vscs, vscName), taken := w.taken - {vscName})
  {
    hide DeleteSnapshot, Handle;
    v :| v in w.vscs && OursNamed(cfg, v, vscName)
         && var (s, r) := DeleteSnapshot(cfg, env, w.ipfs, w.pvs, w.vscs, Handle(v));
            DoDrop(cfg, env, w, vscName) ==
            if r.Err? then w.(ipfs := s)
            else w.(ipfs := s, vscs := WithoutName(w.vscs, vscName), taken := w.taken - {vscName});
  }

  lemma {:induction false} SameName(vscs: seq<SnapshotContent>, u: SnapshotContent, v: SnapshotContent)
    requires DistinctNames(vscs) && u in vscs && v in vscs
    ensures u.name == v.name ==> u == v
  {
    var i :| 0 <= i < |vscs| && vscs[i] == u;
    var j :| 0 <= j < |vscs| && vscs[j] == v;
  }

  // ------------------------------------------------------------ objects brought in

  /** Whatever an object brought in refers to is pinned already. */
  ghost predicate Covered(cfg: Config, w: World, step: Step) {
    match step
    case VolumeAppears(pv) => forall cid :: Keeps(cfg, pv, cid) ==> cid in w.ipfs.pins
    case SnapshotAppears(vsc) => vsc.driver == cfg.driver ==> Handle(vsc) in w.ipfs.pins
    case _ => true
  }

  /** The object is one that can be listed. */
  ghost predicate Fits(cfg: Config, w: World, step: Step)
    requires step.VolumeAppears? || step.SnapshotAppears?
  {
    if step.VolumeAppears? then VolumeFits(cfg, w, step.pv) else SnapshotFits(cfg, w, step.vsc)
  }

  /** Bringing in an object keeps the pin set exact exactly if it cannot be listed, or what it refers to is pinned. */
  lemma {:induction false} AppearanceExact(cfg: Config, env: Env, w: World, step: Step)
    requires Exact(cfg, w) && (step.VolumeAppears? || step.SnapshotAppears?)
    ensures Exact(cfg, Do(cfg, env, w, step)) <==> !Fits(cfg, w, step) || Covered(cfg, w, step)
  {
    hide Referenced, Keeps, Handle, VolumeFits, SnapshotFits;
    var w' := Do(cfg, env, w, step);
    if Fits(cfg, w, step) {
      forall cid ensures Referenced(cfg, w', cid) <==> Referenced(cfg, w, cid) || Brings(cfg, step, cid) {
        if step.VolumeAppears? {
          OneMoreVolume(cfg, w, w', step.pv, cid);
        } else {
          OneMoreSnapshot(cfg, w, w', step.vsc, cid);
        }
      }
      assert Covered(cfg, w, step) <==> forall cid :: Brings(cfg, step, cid) ==> cid in w.ipfs.pins;
    }
  }

  predicate Brings(cfg: Config, step: Step, cid: string) {
    || (step.VolumeAppears? && Keeps(cfg, step.pv, cid))
    || (step.SnapshotAppears? && HoldsCid(step.vsc, cfg.driver, cid))
  }

  // ------------------------------------------------------------ runs

  lemma {:induction false} OthersExact(cfg: Config, env: Env, w: World, step: Step)
    requires Exact(cfg, w)
    requires step.StageAt? || step.Write? || step.UnstageAt? || step.CollectGarbage?
    ensures Exact(cfg, Do(cfg, env, w, step))
  {
    hide Stage, Unstage, WouldImport, Exact, ValidDir, PlaceIn, UnstageClears;
    OthersOnlyPin(cfg, env, w, step);
    SameObjects(cfg, w, Do(cfg, env, w, step));
  }

  /** What it takes for a step to keep the pin set exact. */
  ghost predicate Tight(cfg: Config, env: Env, w: World, step: Step) {
    match step
    case Create(req, _) => CreateTight(cfg, env, w, req)
    case Delete(id) => DeleteTight(cfg, env, w, id)
    case Take(req, vscName) => TakeTight(cfg, env, w, req, vscName)
    case Drop(vscName) => forall v :: v in w.vscs && OursNamed(cfg, v, vscName) ==> DropTight(cfg, env, w, v)
    case VolumeAppears(_) => !Fits(cfg, w, step) || Covered(cfg, w, step)
    case SnapshotAppears(_) => !Fits(cfg, w, step) || Covered(cfg, w, step)
    case _ => true
  }

  /** For every kind of step and every schedule, that is exactly what it takes. */
  lemma {:induction false} StepExact(cfg: Config, env: Env, w: World, step: Step)
    requires Lawful(env) && Sound(cfg, env, w) && Exact(cfg, w)
    ensures Exact(cfg, Do(cfg, env, w, step)) <==> Tight(cfg, env, w, step)
  {
    hide Exact, Sound, DoCreate, DoDelete, DoTake, DoStage, DoUnstage, DoVolumeAppears, DoSnapshotAppears, Covered,
         CreateTight, DeleteTight, TakeTight, DropTight, Orderly;
    SoundIsOrderly(cfg, env, w);
    match step {
      case Create(req, pvName) => CreateExact(cfg, env, w, req, pvName);
      case Delete(id) => DeleteExact(cfg, env, w, id);
      case Take(req, vscName) => TakeExact(cfg, env, w, req, vscName);
      case Drop(vscName) => DropStepExact(cfg, env, w, vscName);
      case VolumeAppears(_) => AppearanceExact(cfg, env, w, step);
      case SnapshotAppears(_) => AppearanceExact(cfg, env, w, step);
      case _ => OthersExact(cfg, env, w, step);
    }
  }

  lemma {:induction false} DropStepExact(cfg: Config, env: Env, w: World, vscName: string)
    requires Sound(cfg, env, w) && Exact(cfg, w)
    ensures
      Exact(cfg, DoDrop(cfg, env, w, vscName)) <==>
        forall v :: v in w.vscs && OursNamed(cfg, v, vscName) ==> DropTight(cfg, env, w, v)
  {
    hide Exact, DropTight, SoundVolumes, ValidDir, DeleteSnapshot, Handle;
    if v :| v in w.vscs && OursNamed(cfg, v, vscName) {
      DropExact(cfg, env, w, v);
      forall u | u in w.vscs && OursNamed(cfg, u, vscName) ensures u == v {
        SameName(w.vscs, u, v);
      }
    }
  }

  ghost predicate TightRun(cfg: Config, env: Env, w: World, steps: seq<Step>) {
    steps == [] ||
    (TightRun(cfg, env, w, steps[..|steps| - 1])
     && Tight(cfg, env, Run(cfg, env, w, steps[..|steps| - 1]), steps[|steps| - 1]))
  }

  /** A run from an unpinned start whose every step does what it takes has an exact pin set. */
  lemma {:induction false} TightRunsAreExact(cfg: Config, env: Env, w: World, steps: seq<Step>)
    requires Lawful(env) && Initial(cfg, w) && w.ipfs.pins == {} && TightRun(cfg, env, w, steps)
    ensures Exact(cfg, Run(cfg, env, w, steps))
  {
    hide Do, Exact, Sound, Tight;
    if steps == [] {
      StartExact(cfg, w);
    } else {
      var before := steps[..|steps| - 1];
      TightRunsAreExact(cfg, env, w, before);
      RunSound(cfg, env, w, before);
      StepExact(cfg, env, Run(cfg, env, w, before), steps[|steps| - 1]);
    }
  }

  // ------------------------------------------------------------ when pinning works

  /** Throughout the run, what is brought in is pinned already. */
  ghost predicate CoveredRun(cfg: Config, env: Env, w: World, steps: seq<Step>) {
    steps == [] ||
    (CoveredRun(cfg, env, w, steps[..|steps| - 1])
     && Covered(cfg, Run(cfg, env, w, steps[..|steps| - 1]), steps[|steps| - 1]))
  }

  lemma {:induction false} CleanupWorks(cfg: Config, env: Env, s: State, pvs: seq<PersistentVolume>,
                                        vscs: seq<SnapshotContent>, a: VolumeAttributes)
    requires cfg.snapshots && PinningWorks(env, s.clock, Cleanup(cfg, env, s, pvs, vscs, a).clock)
    requires
      var cid := Get(a.attributes, CID);
      && cid != "" && PinningEnabled(a.attributes)
      && VolumeRefs(pvs, cfg.driver, cid, a.volumeId) == 0 && SnapshotRefs(vscs, cfg.driver, cid, false) == 0
    ensures Counts(cfg, env, s.clock) && Unpins(cfg, env, s.clock)
  {
    hide VolumeRefs, SnapshotRefs, Location, IsAbs;
  }

  lemma {:induction false} DeleteWorks(cfg: Config, env: Env, w: World, id: string)
    requires cfg.snapshots && Orderly(cfg, w) && PinningWorksFor(cfg, env, w, Delete(id))
    ensures DeleteTight(cfg, env, w, id)
  {
    hide DeleteVolume, Cleanup, VolumeRefs, SnapshotRefs, Counts, Unpins, NeededElsewhere, Orderly, Lookup;
    if Ours(cfg, w.pvs, id) && Finds(env, w.ipfs, w.pvs, id) {
      var pv := Owned(cfg, w.pvs, id);
      var (a, cid) := (ToAttributes(pv), Get(pv.csi.value.attributes, CID));
      OrderlyVolumes(cfg, w);
      DeleteEffects(cfg, env, w, id);
      DeleteFinds(cfg, env, w, id);
      LastReference(cfg, w, id, cid);
      if Keeps(cfg, pv, cid) && !NeededElsewhere(cfg, w, id, cid) {
        CleanupWorks(cfg, env, Tick(w.ipfs), w.pvs, w.vscs, a);
      }
    }
  }

  lemma {:induction false} OrderlyVolumes(cfg: Config, w: World)
    requires Orderly(cfg, w)
    ensures SoundVolumes(cfg, w.pvs)
  {
  }

  lemma {:induction false} DropWorks(cfg: Config, env: Env, w: World, v: SnapshotContent)
    requires Sound(cfg, env, w) && Exact(cfg, w) && PinningWorksFor(cfg, env, w, Drop(v.name))
    requires v in w.vscs && v.driver == cfg.driver
    ensures DropTight(cfg, env, w, v)
  {
    hide DeleteSnapshot, SoundVolumes, ValidDir, VolumeRefs, SnapshotRefs, Handle, NeededBesides, Exact;
    assert OursNamed(cfg, v, v.name);
    var u := Dropped(cfg, env, w, v.name);
    SameName(w.vscs, u, v);
    HandleNotEmpty(cfg, env, w, v);
    assert SoundSnapshot(cfg, env, v, w.taken);
    LastSnapshot(cfg, env, w, v);
    if Counts(cfg, env, w.ipfs.clock) && !NeededBesides(cfg, w, v) {
      DropTime(cfg, env, w, Handle(v));
    }
  }

  lemma {:induction false} DropTime(cfg: Config, env: Env, w: World, cid: string)
    requires cfg.snapshots && cid != "" && cid in w.ipfs.pins && Counts(cfg, env, w.ipfs.clock)
    requires VolumeRefs(w.pvs, cfg.driver, cid, "") == 0 && SnapshotRefs(w.vscs, cfg.driver, cid, true) == 0
    ensures DeleteSnapshot(cfg, env, w.ipfs, w.pvs, w.vscs, cid).0.clock == w.ipfs.clock + 3
  {
    hide VolumeRefs, SnapshotRefs;
  }

  lemma {:induction false} WorkingIsTight(cfg: Config, env: Env, w: World, step: Step)
    requires Lawful(env) && Sound(cfg, env, w) && cfg.snapshots && Exact(cfg, w)
    requires PinningWorksFor(cfg, env, w, step) && Covered(cfg, w, step)
    ensures Tight(cfg, env, w, step)
  {
    hide Exact, Sound, Covered, ReachesPin, DeleteTight, DropTight, Orderly, Resolves, CreateVolume, CreateSnapshot,
         SourceTree, DeleteVolume, DeleteSnapshot, VolumeId, Handle, Recorded, Stage, Unstage, WouldImport, PlaceIn;
    SoundIsOrderly(cfg, env, w);
    match step {
      case Create(req, _) => CreatePins(cfg, env, w.ipfs, req);
      case Delete(id) => DeleteWorks(cfg, env, w, id);
      case Take(req, _) =>
        if Ours(cfg, w.pvs, req.sourceVolumeId) {
          TakeEffects(cfg, env, w, req);
        }
      case Drop(vscName) =>
        forall v | v in w.vscs && OursNamed(cfg, v, vscName) ensures DropTight(cfg, env, w, v) {
          DropWorks(cfg, env, w, v);
        }
      case _ =>
    }
  }

  /**
   In particular, in every run from an unpinned start, with the snapshot API installed and
   pin, unpin and list calls that work while it lasts, exactly the CIDs of listed volumes
   with pinning on and of listed snapshots are pinned: nothing leaks and nothing is lost
   early, whatever else fails.
   */
  lemma {:induction false} ReferenceCountingIsExact(cfg: Config, env: Env, w: World, steps: seq<Step>)
    requires Lawful(env) && cfg.snapshots && Initial(cfg, w) && w.ipfs.pins == {}
    requires PinningWorks(env, w.ipfs.clock, Run(cfg, env, w, steps).ipfs.clock) && CoveredRun(cfg, env, w, steps)
    ensures Exact(cfg, Run(cfg, env, w, steps))
  {
    hide Do, Exact, Sound, Covered, Tight;
    if steps == [] {
      StartExact(cfg, w);
    } else {
      var before, step := steps[..|steps| - 1], steps[|steps| - 1];
      RunTakesTime(cfg, env, w, before);
      StepTakesTime(cfg, env, Run(cfg, env, w, before), step);
      ReferenceCountingIsExact(cfg, env, w, before);
      RunSound(cfg, env, w, before);
      WorkingIsTight(cfg, env, Run(cfg, env, w, before), step);
      StepExact(cfg, env, Run(cfg, env, w, before), step);
    }
  }

  lemma {:induction false} StartExact(cfg: Config, w: World)
    requires Initial(cfg, w) && w.ipfs.pins == {}
    ensures Exact(cfg, w)
  {
    NothingYet(cfg, w);
  }

  // ------------------------------------------------------------ where exactness breaks

  /**
   Without the snapshot API nothing records a snapshot: a call to take one keeps the pin set
   exact exactly if it gets to no CID, the CID was pinned already, or the pin is refused.
   */
  lemma {:induction false} UnrecordedSnapshotLeaks(cfg: Config, env: Env, w: World, req: CreateSnapshotRequest,
                                                   vscName: string)
    requires Lawful(env) && !cfg.snapshots && Sound(cfg, env, w) && Exact(cfg, w)
    requires Ours(cfg, w.pvs, req.sourceVolumeId) && !(exists v :: v in w.vscs && v.name == vscName)
    ensures
      Exact(cfg, DoTake(cfg, env, w, req, vscName)) <==>
        || !Resolves(cfg, env, w, req)
        || env.cidOf(SourceTree(cfg, w, req.sourceVolumeId)) in w.ipfs.pins
        || SnapshotPinReply(env, w.ipfs).Refused?
  {
    hide Exact, Sound, Resolves, SourceTree, DoTake;
    TakeExact(cfg, env, w, req, vscName);
  }

  /**
   Why a snapshot has to be deleted while it is listed: the count takes one off for it. Called
   for a CID whose own object is gone already, with the count answered and the unpin taking
   effect, a deletion takes away a pin that is still needed exactly if no volume holds the CID
   and exactly one listed snapshot does.
   */
  lemma {:induction false} UnlistedDeleteHurts(cfg: Config, env: Env, w: World, cid: string)
    requires Orderly(cfg, w) && cfg.snapshots && cid != "" && cid in w.ipfs.pins
    requires Counts(cfg, env, w.ipfs.clock) && Unpins(cfg, env, w.ipfs.clock)
    ensures
      cid !in DeleteSnapshot(cfg, env, w.ipfs, w.pvs, w.vscs, cid).0.pins && Referenced(cfg, w, cid) <==>
        !VolumeHolds(cfg, w, cid) && CountIf(v => HoldsCid(v, cfg.driver, cid), w.vscs) == 1
  {
    hide DeleteSnapshot, VolumeRefs, Counts, Unpins, CountIf, HoldsCid;
    DropPins(cfg, env, w, cid);
    VolumeRefsMeaning(cfg, w.pvs, cid, "");
    SnapshotRefsMeaning(w.vscs, cfg.driver, cid);
  }

  /** A count that starts here is answered and finds nothing. */
  predicate CountsNone(cfg: Config, env: Env, s: State, pvs: seq<PersistentVolume>, vscs: seq<SnapshotContent>,
                       cid: string, id: string)
  {
    && Counts(cfg, env, s.clock) && VolumeRefs(pvs, cfg.driver, cid, id) == 0
    && (cfg.snapshots ==> SnapshotRefs(vscs, cfg.driver, cid, false) == 0)
  }

  lemma {:induction false} CountsNoneExactly(cfg: Config, env: Env, s: State, pvs: seq<PersistentVolume>,
                                             vscs: seq<SnapshotContent>, cid: string, id: string)
    ensures
      RefUsage(cfg, env, s, pvs, vscs, cid, id, false).1 == Ok((0, 0)) <==> CountsNone(cfg, env, s, pvs, vscs, cid, id)
  {
    hide VolumeRefs, SnapshotRefs;
  }

  /**
   Why each call has to be one step: the locks are per volume, not per CID. Let a deletion
   count the references to `gone`, then any creation with pinning happen, then the deletion
   go on. The created volume's CID stays pinned exactly if it is another CID, the count fails
   or finds something, or the unpin is refused.
   */
  lemma {:induction false} InterleavedCheckLosesPin(cfg: Config, env: Env, s: State, pvs: seq<PersistentVolume>,
                                                    vscs: seq<SnapshotContent>, id: string, gone: string,
                                                    req: CreateVolumeRequest)
    ensures
      var cid := Get(req.parameters, CID);
      var (s1, refs) := RefUsage(cfg, env, s, pvs, vscs, gone, id, false);
      var (s2, r) := CreateVolume(cfg, env, s1, req);
      var s3 := if refs == Ok((0, 0)) then Unpin(env, s2, gone).0 else s2;
      cid in s.pins || (ReachesPin(env, s1, req) && !PinReply(env, s1).Refused?) ==>
        (cid in s3.pins <==>
           cid != gone || !CountsNone(cfg, env, s, pvs, vscs, gone, id) || env.reply(UnpinCall, s2.clock).Refused?)
  {
    hide CreateVolume, RefUsage, CountsNone, ReachesPin;
    CreatePins(cfg, env, RefUsage(cfg, env, s, pvs, vscs, gone, id, false).0, req);
    CountsNoneExactly(cfg, env, s, pvs, vscs, gone, id);
    CountingKeepsPins(cfg, env, s, pvs, vscs, gone, id);
  }

  lemma {:induction false} CountingKeepsPins(cfg: Config, env: Env, s: State, pvs: seq<PersistentVolume>,
                                             vscs: seq<SnapshotContent>, cid: string, id: string)
    ensures RefUsage(cfg, env, s, pvs, vscs, cid, id, false).0.pins == s.pins
  {
    hide VolumeRefs, SnapshotRefs;
  }
}
