/** Per-key try-locks, and every interleaving of controller calls that use them. */
module Locks {
  import opened Paths

  class VolumeLocks {
    var locks: set<string>

    constructor ()
      ensures locks == {}
    {
      locks := {};
    }

    method TryAcquire(key: string) returns (acquired: bool)
      modifies this
      ensures acquired <==> key !in old(locks)
      ensures locks == old(locks) + {key}
    {
      if key in locks {
        return false;
      }
      locks := locks + {key};
      return true;
    }

    /** Releasing a key that is not held is harmless. */
    method Release(key: string)
      modifies this
      ensures locks == old(locks) - {key}
    {
      locks := locks - {key};
    }
  }

  // ------------------------------------------------------------ keys

  /** A controller call, as far as its lock key is concerned. */
  datatype Operation =
    | CreateVolume(name: string)
    | DeleteVolume(id: string)
    | CreateSnapshot(name: string)
    | DeleteSnapshot(id: string)

  function Key(op: Operation): string {
    match op
    case CreateVolume(name) => VolumeId(name)
    case DeleteVolume(id) => id
    case CreateSnapshot(name) => "snapshot-" + name
    case DeleteSnapshot(id) => "delete-snapshot-" + id
  }

  /** Volume identifiers the driver itself has issued. */
  ghost predicate Issued(id: string) { exists name :: name != "" && id == VolumeId(name) }

  ghost predicate OnIssued(op: Operation) { op.DeleteVolume? ==> Issued(op.id) }

  /** What a call is about: a volume, the taking of a snapshot, or the removal of one. */
  datatype Subject = OfVolume(id: string) | TakingSnapshot(name: string) | RemovingSnapshot(id: string)

  function SubjectOf(op: Operation): Subject {
    match op
    case CreateVolume(name) => OfVolume(VolumeId(name))
    case DeleteVolume(id) => OfVolume(id)
    case CreateSnapshot(name) => TakingSnapshot(name)
    case DeleteSnapshot(id) => RemovingSnapshot(id)
  }

  /** Among calls on issued volumes, equal keys mean the same subject: the three families never collide. */
  lemma {:induction false} KeysSeparateSubjects(a: Operation, b: Operation)
    requires OnIssued(a) && OnIssued(b)
    ensures Key(a) == Key(b) <==> SubjectOf(a) == SubjectOf(b)
  {
    KeyHead(a);
    KeyHead(b);
    if a.CreateSnapshot? && b.CreateSnapshot? {
      assert Key(a)[|"snapshot-"|..] == a.name && Key(b)[|"snapshot-"|..] == b.name;
    }
    if a.DeleteSnapshot? && b.DeleteSnapshot? {
      assert Key(a)[|"delete-snapshot-"|..] == a.id && Key(b)[|"delete-snapshot-"|..] == b.id;
    }
  }

  lemma {:induction false} KeyHead(op: Operation)
    requires OnIssued(op)
    ensures Key(op) != ""
    ensures Key(op)[0] == match SubjectOf(op)
                          case OfVolume(_) => 'i'
                          case TakingSnapshot(_) => 's'
                          case RemovingSnapshot(_) => 'd'
  {
  }

  /**
   A volume identifier that was not issued can collide: a deletion shares its key with some
   snapshot call exactly if its identifier begins like a snapshot key.
   */
  lemma {:induction false} ForeignIdCollides(id: string)
    ensures
      (exists op: Operation :: (op.CreateSnapshot? || op.DeleteSnapshot?) && Key(op) == Key(DeleteVolume(id))) <==>
        "snapshot-" <= id || "delete-snapshot-" <= id
  {
    if "snapshot-" <= id {
      assert Key(CreateSnapshot(id[|"snapshot-"|..])) == id;
    }
    if "delete-snapshot-" <= id {
      assert Key(DeleteSnapshot(id[|"delete-snapshot-"|..])) == id;
    }
  }

  // ------------------------------------------------------------ interleavings

  datatype Phase = Working(op: Operation) | Done | AbortedAtOnce

  /** The lock table and every call ever started, by call number. */
  datatype System = System(held: set<string>, calls: map<nat, Phase>)

  datatype Event = Start(call: nat, op: Operation) | Finish(call: nat)

  const IDLE := System({}, map[])

  /** A call starts with its try-lock; it finishes, on whatever exit path, by releasing its key. */
  function Happen(s: System, e: Event): System {
    match e
    case Start(call, op) =>
      if call in s.calls then s
      else if Key(op) in s.held then s.(calls := s.calls[call := AbortedAtOnce])
      else System(s.held + {Key(op)}, s.calls[call := Working(op)])
    case Finish(call) =>
      if call in s.calls && s.calls[call].Working?
      then System(s.held - {Key(s.calls[call].op)}, s.calls[call := Done])
      else s
  }

  function Interleave(events: seq<Event>): System {
    if events == [] then IDLE
    else Happen(Interleave(events[..|events| - 1]), events[|events| - 1])
  }

  /** The same event on the real lock table. */
  method Perform(table: VolumeLocks, s: System, e: Event) returns (after: System)
    requires table.locks == s.held
    modifies table
    ensures after == Happen(s, e) && table.locks == after.held
  {
    after := s;
    match e {
      case Start(call, op) =>
        if call !in s.calls {
          var acquired := table.TryAcquire(Key(op));
          after := after.(held := table.locks,
                          calls := s.calls[call := if acquired then Working(op) else AbortedAtOnce]);
        }
      case Finish(call) =>
        if call in s.calls && s.calls[call].Working? {
          table.Release(Key(s.calls[call].op));
          after := System(table.locks, s.calls[call := Done]);
        }
    }
  }

  /** Whatever the order of events, a table that started empty follows the interleaving. */
  method PerformAll(table: VolumeLocks, events: seq<Event>) returns (s: System)
    requires table.locks == {}
    modifies table
    ensures s == Interleave(events) && table.locks == s.held
  {
    s := IDLE;
    for i := 0 to |events|
      invariant s == Interleave(events[..i]) && table.locks == s.held
    {
      assert events[..i + 1][..i] == events[..i];
      s := Perform(table, s, events[i]);
    }
    assert events[..|events|] == events;
  }

  predicate InFlight(s: System, call: nat) { call in s.calls && s.calls[call].Working? }

  ghost predicate Disciplined(s: System) {
    && (forall key :: key in s.held <==> exists c: nat :: InFlight(s, c) && Key(s.calls[c].op) == key)
    && (forall c: nat, d: nat :: InFlight(s, c) && InFlight(s, d) && c != d ==>
                                 Key(s.calls[c].op) != Key(s.calls[d].op))
  }

  lemma {:induction false} StepDisciplined(s: System, e: Event)
    requires Disciplined(s)
    ensures Disciplined(Happen(s, e))
  {
    var s' := Happen(s, e);
    if s' != s && e.Start? {
      assert forall c: nat :: c != e.call ==> (InFlight(s', c) <==> InFlight(s, c));
      assert forall c: nat :: InFlight(s, c) ==> s'.calls[c] == s.calls[c];
      forall key ensures key in s'.held <==> exists c: nat :: InFlight(s', c) && Key(s'.calls[c].op) == key {
        if key in s.held {
          var c: nat :| InFlight(s, c) && Key(s.calls[c].op) == key;
          assert InFlight(s', c);
        } else if key in s'.held {
          assert InFlight(s', e.call);
        }
      }
    } else if s' != s {
      var gone := Key(s.calls[e.call].op);
      assert InFlight(s, e.call);
      assert forall c: nat :: InFlight(s', c) <==> InFlight(s, c) && c != e.call;
      assert forall c: nat :: InFlight(s', c) ==> s'.calls[c] == s.calls[c];
      forall key ensures key in s'.held <==> exists c: nat :: InFlight(s', c) && Key(s'.calls[c].op) == key {
        if key in s'.held {
          var c: nat :| InFlight(s, c) && Key(s.calls[c].op) == key;
          assert InFlight(s', c);
        }
      }
    }
  }

  /**
   After any interleaving of any number of calls, the lock table holds exactly the keys
   of the calls in flight, and each key has one holder.
   */
  lemma {:induction false} LocksTrackCalls(events: seq<Event>)
    ensures Disciplined(Interleave(events))
  {
    if events != [] {
      LocksTrackCalls(events[..|events| - 1]);
      StepDisciplined(Interleave(events[..|events| - 1]), events[|events| - 1]);
    }
  }

  /** When no call is in flight any more, no key is left locked. */
  lemma {:induction false} NoLockOutlivesCalls(events: seq<Event>)
    requires forall c: nat :: !InFlight(Interleave(events), c)
    ensures Interleave(events).held == {}
  {
    LocksTrackCalls(events);
  }

  /**
   Two volume creations in flight never work on the same automatic MFS path, and a
   creation and a deletion of one issued volume are never in flight together.
   */
  lemma {:induction false} WorkIsExclusive(events: seq<Event>, c: nat, d: nat, root: string)
    requires
      var s := Interleave(events);
      InFlight(s, c) && InFlight(s, d) && c != d && s.calls[c].op.CreateVolume?
    requires SafeRoot(root)
    ensures
      var a, b := Interleave(events).calls[c].op, Interleave(events).calls[d].op;
      && (b.CreateVolume? && a.name != "" && b.name != "" ==>
            NormalizeMFSPath(root + "/" + Sanitize(a.name), root) !=
            NormalizeMFSPath(root + "/" + Sanitize(b.name), root))
      && (b.DeleteVolume? ==> b.id != VolumeId(a.name))
  {
    LocksTrackCalls(events);
    var a, b := Interleave(events).calls[c].op, Interleave(events).calls[d].op;
    assert Key(a) != Key(b);
    if b.CreateVolume? && a.name != "" && b.name != "" {
      AutoPath(a.name, root);
      AutoPath(b.name, root);
      if Sanitize(a.name) != Sanitize(b.name) {
        var r := Location(root);
        assert (r + [Sanitize(a.name)])[|r|] != (r + [Sanitize(b.name)])[|r|];
      }
    }
  }
}
