/** Snapshots as the VolumeSnapshotContent lister shows them. */
module SnapshotStore {
  import opened Results
  import opened Counting

  datatype SnapshotStatus = SnapshotStatus(handle: Option<string>, ready: Option<bool>,
                                           creationTime: Option<int>, restoreSize: Option<int>)

  datatype SnapshotContent = SnapshotContent(name: string, driver: string, sourceVolume: Option<string>,
                                             sourceSnapshot: Option<string>, status: Option<SnapshotStatus>)

  datatype SnapshotEntry = SnapshotEntry(snapshotId: string, sourceVolumeId: string, ready: bool,
                                         creationTime: int, sizeBytes: int)

  function OrElse<T>(o: Option<T>, default: T): T {
    if o.Some? then o.value else default
  }

  /** The handle in the status counts first; the one in the spec stands in for an empty one. */
  function Handle(vsc: SnapshotContent): string {
    var fromStatus := if vsc.status.Some? then OrElse(vsc.status.value.handle, "") else "";
    if fromStatus == "" && vsc.sourceSnapshot.Some? then vsc.sourceSnapshot.value else fromStatus
  }

  predicate Matches(vsc: SnapshotContent, driver: string, snapshotId: string, sourceVolumeId: string) {
    && vsc.driver == driver
    && (snapshotId == "" || Handle(vsc) == snapshotId)
    && (sourceVolumeId == "" || OrElse(vsc.sourceVolume, "") == sourceVolumeId)
  }

  /** Go's integer division, which rounds towards zero. */
  function Quotient(a: int, b: int): int
    requires b > 0
  {
    if a < 0 then -((-a) / b) else a / b
  }

  function ToEntry(vsc: SnapshotContent): SnapshotEntry {
    SnapshotEntry(
      Handle(vsc),
      OrElse(vsc.sourceVolume, ""),
      vsc.status.Some? && OrElse(vsc.status.value.ready, false),
      if vsc.status.Some? then Quotient(OrElse(vsc.status.value.creationTime, 0), 1_000_000_000) else 0,
      if vsc.status.Some? then OrElse(vsc.status.value.restoreSize, 0) else 0)
  }

  /** The matching snapshots, in listing order. */
  function Snapshots(vscs: seq<SnapshotContent>, driver: string, snapshotId: string, sourceVolumeId: string)
    : (out: seq<SnapshotEntry>)
  {
    if vscs == [] then []
    else
      var last := vscs[|vscs| - 1];
      Snapshots(vscs[..|vscs| - 1], driver, snapshotId, sourceVolumeId) +
        if Matches(last, driver, snapshotId, sourceVolumeId) then [ToEntry(last)] else []
  }

  method ListSnapshots(vscs: seq<SnapshotContent>, driver: string, snapshotId: string, sourceVolumeId: string)
    returns (out: seq<SnapshotEntry>)
    ensures out == Snapshots(vscs, driver, snapshotId, sourceVolumeId)
  {
    out := [];
    for i := 0 to |vscs|
      invariant out == Snapshots(vscs[..i], driver, snapshotId, sourceVolumeId)
    {
      assert vscs[..i + 1][..i] == vscs[..i];
      if Matches(vscs[i], driver, snapshotId, sourceVolumeId) {
        out := out + [ToEntry(vscs[i])];
      }
    }
    assert vscs[..|vscs|] == vscs;
  }

  /** The object stands for this CID: by the handle in its status, or, lacking one there, by the one in its spec. */
  predicate StandsFor(vsc: SnapshotContent, cid: string) {
    if vsc.status.Some? && vsc.status.value.handle.Some? && vsc.status.value.handle.value != ""
    then vsc.status.value.handle.value == cid
    else if vsc.sourceSnapshot.Some? then vsc.sourceSnapshot.value == cid
    else cid == ""
  }

  lemma {:induction false} HandleMeans(vsc: SnapshotContent, cid: string)
    ensures Handle(vsc) == cid <==> StandsFor(vsc, cid)
  {
  }

  /** Nanoseconds in whole seconds, rounded towards zero. */
  predicate InSeconds(ns: int, seconds: int) {
    if ns >= 0 then 0 <= ns - seconds * 1_000_000_000 < 1_000_000_000
    else 0 <= seconds * 1_000_000_000 - ns < 1_000_000_000
  }

  /** An entry says of an object what its fields say. */
  predicate Describes(e: SnapshotEntry, vsc: SnapshotContent) {
    && StandsFor(vsc, e.snapshotId)
    && (if vsc.sourceVolume.Some? then vsc.sourceVolume.value == e.sourceVolumeId else e.sourceVolumeId == "")
    && (e.ready <==> vsc.status.Some? && vsc.status.value.ready == Some(true))
    && (if vsc.status.Some? && vsc.status.value.creationTime.Some?
        then InSeconds(vsc.status.value.creationTime.value, e.creationTime) else e.creationTime == 0)
    && (if vsc.status.Some? && vsc.status.value.restoreSize.Some?
        then e.sizeBytes == vsc.status.value.restoreSize.value else e.sizeBytes == 0)
  }

  lemma {:induction false} EntryDescribes(e: SnapshotEntry, vsc: SnapshotContent)
    ensures e == ToEntry(vsc) <==> Describes(e, vsc)
  {
    HandleMeans(vsc, e.snapshotId);
  }

  /** An object of the driver that passes the filters, where an empty filter lets everything pass. */
  predicate Passes(vsc: SnapshotContent, driver: string, snapshotId: string, sourceVolumeId: string) {
    && vsc.driver == driver
    && (snapshotId != "" ==> StandsFor(vsc, snapshotId))
    && (sourceVolumeId != "" ==> vsc.sourceVolume == Some(sourceVolumeId))
  }

  lemma {:induction false} MatchesMeans(vsc: SnapshotContent, driver: string, snapshotId: string,
                                        sourceVolumeId: string)
    ensures Matches(vsc, driver, snapshotId, sourceVolumeId) <==> Passes(vsc, driver, snapshotId, sourceVolumeId)
  {
    HandleMeans(vsc, snapshotId);
  }

  /** The listing has an entry for every snapshot that passes the filters, and no other entry. */
  lemma {:induction false} SnapshotsAreTheMatches(vscs: seq<SnapshotContent>, driver: string, snapshotId: string,
                                                  sourceVolumeId: string, e: SnapshotEntry)
    ensures
      e in Snapshots(vscs, driver, snapshotId, sourceVolumeId) <==>
        exists v :: v in vscs && Passes(v, driver, snapshotId, sourceVolumeId) && Describes(e, v)
  {
    hide Matches, ToEntry, Passes, Describes;
    if vscs != [] {
      var rest, last := vscs[..|vscs| - 1], vscs[|vscs| - 1];
      SnapshotsAreTheMatches(rest, driver, snapshotId, sourceVolumeId, e);
      MatchesMeans(last, driver, snapshotId, sourceVolumeId);
      EntryDescribes(e, last);
      assert forall v :: v in vscs <==> v in rest || v == last;
    }
  }

  /** A snapshot of this driver that stands for `cid`. */
  predicate HoldsCid(vsc: SnapshotContent, driver: string, cid: string) {
    vsc.driver == driver && Handle(vsc) == cid
  }

  lemma {:induction false} HoldsMeans(vsc: SnapshotContent, driver: string, cid: string)
    ensures HoldsCid(vsc, driver, cid) <==> vsc.driver == driver && StandsFor(vsc, cid)
  {
    HandleMeans(vsc, cid);
  }

  /** The length of a listing filtered by CID is the number of the driver's snapshots that stand for it. */
  lemma {:induction false} SnapshotsCounted(vscs: seq<SnapshotContent>, driver: string, cid: string)
    requires cid != ""
    ensures |Snapshots(vscs, driver, cid, "")| == CountIf(v => HoldsCid(v, driver, cid), vscs)
    ensures
      |Snapshots(vscs, driver, cid, "")| ==
      |set i | 0 <= i < |vscs| && vscs[i].driver == driver && StandsFor(vscs[i], cid)|
  {
    ListedAndCounted(vscs, driver, cid);
    var p := (v: SnapshotContent) => HoldsCid(v, driver, cid);
    CountIsCardinality(p, vscs, |vscs|);
    assert vscs[..|vscs|] == vscs;
    forall v: SnapshotContent {
      HoldsMeans(v, driver, cid);
    }
    assert Hits(p, vscs, |vscs|) == set i | 0 <= i < |vscs| && vscs[i].driver == driver && StandsFor(vscs[i], cid);
  }

  lemma {:induction false} ListedAndCounted(vscs: seq<SnapshotContent>, driver: string, cid: string)
    requires cid != ""
    ensures |Snapshots(vscs, driver, cid, "")| == CountIf(v => HoldsCid(v, driver, cid), vscs)
  {
    if vscs != [] {
      ListedAndCounted(vscs[..|vscs| - 1], driver, cid);
    }
  }
}
