/** Volumes as the PersistentVolume lister shows them. */
module VolumeStore {
  import opened Results

  datatype CsiSource = CsiSource(driver: string, handle: string, attributes: map<string, string>)

  datatype PersistentVolume = PersistentVolume(name: string, capacity: Option<int>, csi: Option<CsiSource>)

  datatype VolumeAttributes = VolumeAttributes(volumeId: string, capacity: int, attributes: map<string, string>)

  predicate HasHandle(pv: PersistentVolume, id: string) { pv.csi.Some? && pv.csi.value.handle == id }

  function ToAttributes(pv: PersistentVolume): VolumeAttributes
    requires pv.csi.Some?
  {
    var csi := pv.csi.value;
    VolumeAttributes(if csi.handle == "" then pv.name else csi.handle,
                     if pv.capacity.Some? then pv.capacity.value else 0,
                     csi.attributes)
  }

  /** No two listed volumes answer to the same CSI handle. */
  ghost predicate UniqueHandles(pvs: seq<PersistentVolume>) {
    forall i, j :: 0 <= i < j < |pvs| && pvs[i].csi.Some? && pvs[j].csi.Some? ==>
      pvs[i].csi.value.handle != pvs[j].csi.value.handle
  }

  // ------------------------------------------------------------ lookup

  /** The lister's own index by object name. */
  function ByName(pvs: seq<PersistentVolume>, name: string): Option<PersistentVolume> {
    if pvs == [] then None else if pvs[0].name == name then Some(pvs[0]) else ByName(pvs[1..], name)
  }

  /** The plain scan: the first listed volume with the handle. */
  function ByHandle(pvs: seq<PersistentVolume>, id: string): (r: Option<PersistentVolume>)
    ensures r.Some? ==> r.value in pvs && HasHandle(r.value, id)
    ensures r.None? ==> forall pv :: pv in pvs ==> !HasHandle(pv, id)
  {
    if pvs == [] then None else if HasHandle(pvs[0], id) then Some(pvs[0]) else ByHandle(pvs[1..], id)
  }

  /** `listed` says whether the list call answers; the lookup by name does not need it. */
  function Lookup(pvs: seq<PersistentVolume>, listed: bool, id: string): Result<VolumeAttributes> {
    var named := ByName(pvs, id);
    if named.Some? && HasHandle(named.value, id) then Ok(ToAttributes(named.value))
    else if !listed then Err(Internal)
    else
      var found := ByHandle(pvs, id);
      if found.Some? then Ok(ToAttributes(found.value)) else Err(NotFound)
  }

  /** Tries the volume of that name first, then scans. */
  method GetVolumeAttributes(pvs: seq<PersistentVolume>, listed: bool, id: string)
    returns (r: Result<VolumeAttributes>)
    ensures r == Lookup(pvs, listed, id)
  {
    var named := ByName(pvs, id);
    if named.Some? && HasHandle(named.value, id) {
      var attrs := PvToAttributes(named.value);
      return Ok(attrs);
    }
    if !listed {
      return Err(Internal);
    }
    var i := 0;
    while i < |pvs|
      invariant 0 <= i <= |pvs|
      invariant ByHandle(pvs, id) == ByHandle(pvs[i..], id)
    {
      if HasHandle(pvs[i], id) {
        var attrs := PvToAttributes(pvs[i]);
        return Ok(attrs);
      }
      i := i + 1;
    }
    return Err(NotFound);
  }

  /** The attribute map is copied key by key. */
  method PvToAttributes(pv: PersistentVolume) returns (a: VolumeAttributes)
    requires pv.csi.Some?
    ensures a == ToAttributes(pv)
  {
    var source := pv.csi.value;
    var attributes: map<string, string> := map[];
    var todo := source.attributes.Keys;
    while todo != {}
      invariant todo <= source.attributes.Keys
      invariant attributes == map k | k in source.attributes && k !in todo :: source.attributes[k]
      decreases todo
    {
      var k :| k in todo;
      attributes := attributes[k := source.attributes[k]];
      todo := todo - {k};
    }
    assert attributes == source.attributes;
    a := VolumeAttributes(if source.handle == "" then pv.name else source.handle,
                          if pv.capacity.Some? then pv.capacity.value else 0,
                          attributes);
  }

  lemma {:induction false} ByNameIsListed(pvs: seq<PersistentVolume>, name: string)
    ensures ByName(pvs, name).Some? ==> ByName(pvs, name).value in pvs
  {
    if pvs != [] && pvs[0].name != name {
      ByNameIsListed(pvs[1..], name);
    }
  }

  lemma {:induction false} OneOwner(pvs: seq<PersistentVolume>, a: PersistentVolume, b: PersistentVolume, id: string)
    requires UniqueHandles(pvs) && a in pvs && b in pvs && HasHandle(a, id) && HasHandle(b, id)
    ensures a == b
  {
    var i :| 0 <= i < |pvs| && pvs[i] == a;
    var j :| 0 <= j < |pvs| && pvs[j] == b;
    assert i == j;
  }

  /**
   With unique handles, the volume that has the handle is the answer, however it is found;
   a failing list call can only turn the answer into an error.
   */
  lemma {:induction false} LookupFinds(pvs: seq<PersistentVolume>, listed: bool, id: string, pv: PersistentVolume)
    requires UniqueHandles(pvs) && pv in pvs && HasHandle(pv, id)
    ensures Lookup(pvs, listed, id) == Ok(ToAttributes(pv)) || (!listed && Lookup(pvs, listed, id) == Err(Internal))
    ensures
      var r := Lookup(pvs, listed, id);
      r.Ok? ==>
        && (id != "" ==> r.value.volumeId == id)
        && r.value.capacity == (if pv.capacity.Some? then pv.capacity.value else 0)
        && r.value.attributes == pv.csi.value.attributes
  {
    ByNameIsListed(pvs, id);
    var named, found := ByName(pvs, id), ByHandle(pvs, id);
    if named.Some? && HasHandle(named.value, id) {
      OneOwner(pvs, named.value, pv, id);
    } else {
      assert found.Some?;
      OneOwner(pvs, found.value, pv, id);
    }
  }

  /** Not-found is reported exactly when no listed volume has the handle. */
  lemma {:induction false} LookupMisses(pvs: seq<PersistentVolume>, id: string)
    ensures
      Lookup(pvs, true, id) == Err(NotFound) <==>
        forall pv :: pv in pvs ==> pv.csi.None? || pv.csi.value.handle != id
    ensures Lookup(pvs, true, id).Err? ==> Lookup(pvs, true, id) == Err(NotFound)
  {
    ByNameIsListed(pvs, id);
  }

  /** Without a working list call, a volume is found exactly if it is the one that carries its handle as its name. */
  lemma {:induction false} LookupWithoutList(pvs: seq<PersistentVolume>, id: string)
    ensures
      Lookup(pvs, false, id).Ok? <==>
        exists i ::
          && 0 <= i < |pvs| && pvs[i].name == id && pvs[i].csi.Some? && pvs[i].csi.value.handle == id
          && forall j :: 0 <= j < i ==> pvs[j].name != id
    ensures Lookup(pvs, false, id).Err? ==> Lookup(pvs, false, id) == Err(Internal)
  {
    NameIndex(pvs, id);
  }

  lemma {:induction false} NameIndex(pvs: seq<PersistentVolume>, name: string)
    ensures ByName(pvs, name).None? ==> forall j :: 0 <= j < |pvs| ==> pvs[j].name != name
    ensures
      ByName(pvs, name).Some? ==>
        exists i ::
          0 <= i < |pvs| && pvs[i] == ByName(pvs, name).value && pvs[i].name == name
          && forall j :: 0 <= j < i ==> pvs[j].name != name
  {
    if pvs != [] {
      if pvs[0].name == name {
        assert pvs[0] == ByName(pvs, name).value;
      } else {
        NameIndex(pvs[1..], name);
        if ByName(pvs, name).Some? {
          var i :| 0 <= i < |pvs[1..]| && pvs[1..][i] == ByName(pvs, name).value && pvs[1..][i].name == name
                   && forall j :: 0 <= j < i ==> pvs[1..][j].name != name;
          assert pvs[i + 1] == ByName(pvs, name).value;
          forall j | 0 <= j < i + 1 ensures pvs[j].name != name {
            assert j > 0 ==> pvs[j] == pvs[1..][j - 1];
          }
        }
      }
    }
  }

  /** What a plain scan of a listing answers. */
  function Scan(pvs: seq<PersistentVolume>, id: string): Result<VolumeAttributes> {
    var found := ByHandle(pvs, id);
    if found.Some? then Ok(ToAttributes(found.value)) else Err(NotFound)
  }

  /** All listed volumes with the handle look the same to the driver. */
  ghost predicate OneMeaning(pvs: seq<PersistentVolume>, id: string) {
    forall a, b :: a in pvs && b in pvs && HasHandle(a, id) && HasHandle(b, id) ==> ToAttributes(a) == ToAttributes(b)
  }

  lemma {:induction false} UniqueHandlesMeanOne(pvs: seq<PersistentVolume>, id: string)
    requires UniqueHandles(pvs)
    ensures OneMeaning(pvs, id)
  {
    forall a, b | a in pvs && b in pvs && HasHandle(a, id) && HasHandle(b, id) ensures a == b {
      OneOwner(pvs, a, b, id);
    }
  }

  /** Then it does not matter how, or in which order of the listing, the volume is found. */
  lemma {:induction false} LookupIgnoresOrder(pvs: seq<PersistentVolume>, shuffled: seq<PersistentVolume>, id: string)
    requires OneMeaning(pvs, id) && multiset(pvs) == multiset(shuffled)
    ensures Lookup(pvs, true, id) == Scan(shuffled, id) == Lookup(shuffled, true, id)
  {
    assert forall pv :: pv in pvs <==> pv in multiset(pvs);
    assert forall pv :: pv in shuffled <==> pv in multiset(shuffled);
    ByNameIsListed(pvs, id);
    ByNameIsListed(shuffled, id);
  }

  /**
   The two-phase lookup refines the plain scan of every reordering of the listing exactly if
   all listed volumes with the handle look the same; unique handles are enough.
   */
  lemma {:induction false} LookupRefinesScan(pvs: seq<PersistentVolume>, id: string)
    ensures
      OneMeaning(pvs, id) <==>
        forall shuffled :: multiset(shuffled) == multiset(pvs) ==> Scan(shuffled, id) == Lookup(pvs, true, id)
    ensures UniqueHandles(pvs) ==> OneMeaning(pvs, id)
  {
    if UniqueHandles(pvs) {
      UniqueHandlesMeanOne(pvs, id);
    }
    if OneMeaning(pvs, id) {
      forall shuffled | multiset(shuffled) == multiset(pvs) ensures Scan(shuffled, id) == Lookup(pvs, true, id) {
        LookupIgnoresOrder(pvs, shuffled, id);
      }
    } else {
      var a, b :| a in pvs && b in pvs && HasHandle(a, id) && HasHandle(b, id) && ToAttributes(a) != ToAttributes(b);
      var first, second := SharedHandleDiverges(pvs, id, a, b);
      assert Scan(first, id) != Scan(second, id);
    }
  }

  /** Volumes that share a handle and differ each win the scan of some reordering, so no lookup can agree with all. */
  lemma {:induction false} SharedHandleDiverges(pvs: seq<PersistentVolume>, id: string, a: PersistentVolume,
                                                b: PersistentVolume)
    returns (first: seq<PersistentVolume>, second: seq<PersistentVolume>)
    requires a in pvs && b in pvs && HasHandle(a, id) && HasHandle(b, id)
    ensures multiset(first) == multiset(second) == multiset(pvs)
    ensures Scan(first, id) == Ok(ToAttributes(a)) && Scan(second, id) == Ok(ToAttributes(b))
  {
    first := ToFront(pvs, a);
    second := ToFront(pvs, b);
  }

  lemma {:induction false} ToFront(pvs: seq<PersistentVolume>, pv: PersistentVolume)
    returns (shuffled: seq<PersistentVolume>)
    requires pv in pvs
    ensures multiset(shuffled) == multiset(pvs) && shuffled != [] && shuffled[0] == pv
  {
    var i :| 0 <= i < |pvs| && pvs[i] == pv;
    shuffled := [pv] + (pvs[..i] + pvs[i + 1..]);
    assert pvs == pvs[..i] + [pv] + pvs[i + 1..];
  }

  // ------------------------------------------------------------ listing

  predicate OwnedBy(pv: PersistentVolume, driver: string) { pv.csi.Some? && pv.csi.value.driver == driver }

  /** The volumes of one driver, in listing order. */
  function Volumes(pvs: seq<PersistentVolume>, driver: string): (out: seq<VolumeAttributes>)
  {
    if pvs == [] then []
    else
      var last := pvs[|pvs| - 1];
      Volumes(pvs[..|pvs| - 1], driver) + if OwnedBy(last, driver) then [ToAttributes(last)] else []
  }

  /** The listing has an entry for every volume of the driver, and no other entry. */
  lemma {:induction false} VolumesAreOwned(pvs: seq<PersistentVolume>, driver: string, a: VolumeAttributes)
    ensures
      a in Volumes(pvs, driver) <==>
        exists pv ::
          && pv in pvs && pv.csi.Some? && pv.csi.value.driver == driver
          && a.volumeId == (if pv.csi.value.handle != "" then pv.csi.value.handle else pv.name)
          && a.capacity == (if pv.capacity.Some? then pv.capacity.value else 0)
          && a.attributes == pv.csi.value.attributes
  {
    if pvs != [] {
      var rest, last := pvs[..|pvs| - 1], pvs[|pvs| - 1];
      VolumesAreOwned(rest, driver, a);
      assert forall pv :: pv in pvs <==> pv in rest || pv == last;
    }
  }

  method ListVolumes(pvs: seq<PersistentVolume>, driver: string) returns (out: seq<VolumeAttributes>)
    ensures out == Volumes(pvs, driver)
  {
    out := [];
    for i := 0 to |pvs|
      invariant out == Volumes(pvs[..i], driver)
    {
      assert pvs[..i + 1][..i] == pvs[..i];
      if OwnedBy(pvs[i], driver) {
        var attrs := PvToAttributes(pvs[i]);
        out := out + [attrs];
      }
    }
    assert pvs[..|pvs|] == pvs;
  }
}
