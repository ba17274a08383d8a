/**
 The Kubo client: pins, the local block store and MFS, and the tree operations the
 driver builds on them. Each daemon call may fail, before or after it took effect,
 as an arbitrary schedule decides.
 */
module Ipfs {
  import opened Results
  import opened Orders
  import opened Paths
  import opened Trees

  datatype Call = StatCall | GetCall | PinCall | UnpinCall | MkdirCall | RmCall | AddCall | CpCall | MfsStatCall
                | ListCall | LocalCall

  /** `Lost`: the call took effect but an error was reported. `Refused`: it did nothing. */
  datatype Reply = Success | Lost | Refused

  /**
   The surroundings of the driver: what every call is answered at every moment, which
   content other peers can serve then, what a local operation that breaks off then leaves
   behind, and content addressing itself.
   */
  datatype Env = Env(reply: (Call, nat) -> Reply, remote: (string, nat) -> bool, debris: nat -> Tree,
                     cidOf: Tree -> string, content: string -> Tree)

  /** A CID stands for one tree, and a tree's own CID stands for that tree. */
  ghost predicate Lawful(env: Env) {
    && (forall c :: ValidTree(env.content(c)))
    && (forall t :: ValidTree(t) ==> env.content(env.cidOf(t)) == t && env.cidOf(t) != "")
  }

  /** No call made in this stretch of time fails. */
  ghost predicate NoFailure(env: Env, from: nat, to: nat) {
    forall call, n :: from <= n < to ==> env.reply(call, n).Success?
  }

  /** A removal tried at this moment takes effect; the MFS root itself is never removed. */
  predicate Clears(env: Env, n: nat, p: Path) { p != [] && !env.reply(RmCall, n).Refused? }

  /** A local operation that breaks off between two directories. */
  function Torn(env: Env, n: nat, lo: Tree, hi: Tree): (out: Tree)
    ensures ValidDir(lo) ==> Between(lo, out, hi)
  {
    if Between(lo, env.debris(n), hi) then env.debris(n) else lo
  }

  /** `blocks`: CIDs whose whole content is in the local repository outside MFS. */
  datatype State = State(pins: set<string>, blocks: set<string>, mfs: Tree, clock: nat)

  function Tick(s: State): State { s.(clock := s.clock + 1) }

  /** One daemon call: `done` is the state it leads to, or `None` if the daemon must refuse it. */
  function Attempt(env: Env, s: State, call: Call, done: Option<State>): (State, bool) {
    match done
    case None => (Tick(s), false)
    case Some(s') =>
      var reply := env.reply(call, s.clock);
      (if reply.Refused? then Tick(s) else Tick(s'), reply.Success?)
  }

  /** A call outside the daemon (an informer list, a local file system call). */
  function Consult(env: Env, s: State, call: Call): (State, bool) {
    (Tick(s), env.reply(call, s.clock).Success?)
  }

  function Pin(env: Env, s: State, cid: string): (State, bool) {
    Attempt(env, s, PinCall, Some(s.(pins := s.pins + {cid}, blocks := s.blocks + {cid})))
  }

  function Unpin(env: Env, s: State, cid: string): (State, bool) {
    Attempt(env, s, UnpinCall, if cid in s.pins then Some(s.(pins := s.pins - {cid})) else None)
  }

  function MkdirAt(env: Env, s: State, p: Path): (State, bool) {
    Attempt(env, s, MkdirCall, if CanMkdir(s.mfs, p) then Some(s.(mfs := s.mfs + Chain(p))) else None)
  }

  function RmAt(env: Env, s: State, p: Path): (State, bool) {
    Attempt(env, s, RmCall, if p != [] && p in s.mfs then Some(s.(mfs := Outside(s.mfs, p))) else None)
  }

  function AddFile(env: Env, s: State, data: seq<Byte>): (State, bool) {
    Attempt(env, s, AddCall, Some(s.(blocks := s.blocks + {env.cidOf(FileTree(data))})))
  }

  function CpAt(env: Env, s: State, cid: string, p: Path): (State, bool) {
    Attempt(env, s, CpCall,
            if CanCopyTo(s.mfs, p) then Some(s.(mfs := s.mfs + Planted(p, env.content(cid)))) else None)
  }

  /** MFS commands take rooted paths only. */
  function Mkdir(env: Env, s: State, path: string): (State, bool) {
    if IsAbs(path) then MkdirAt(env, s, Location(path)) else (Tick(s), false)
  }

  function Rm(env: Env, s: State, path: string): (State, bool) {
    if IsAbs(path) then RmAt(env, s, Location(path)) else (Tick(s), false)
  }

  /** Content the daemon can serve without asking anyone. */
  predicate Held(env: Env, s: State, cid: string) {
    cid in s.blocks || exists p :: p in s.mfs && env.cidOf(Subtree(s.mfs, p)) == cid
  }

  predicate Reachable(env: Env, s: State, cid: string) {
    Held(env, s, cid) || env.remote(cid, s.clock)
  }

  function Stat(env: Env, s: State, cid: string): (State, Result<bool>) {
    (Tick(s), if env.reply(StatCall, s.clock).Success? then Ok(Reachable(env, s, cid)) else Err(Internal))
  }

  /**
   Download into a local directory. Content fetched completely stays in the block store;
   a download that breaks off leaves a part of it in the directory.
   */
  ghost function GetCID(env: Env, s: State, cid: string, dest: Tree): (State, Tree, bool) {
    if !Reachable(env, s, cid) || env.reply(GetCall, s.clock).Refused? then (Tick(s), dest, false)
    else
      var (out, ok) := WriteNode(env.content(cid), dest);
      if env.reply(GetCall, s.clock).Lost? then (Tick(s), Torn(env, s.clock, dest, out), false)
      else (Tick(s).(blocks := s.blocks + {cid}), out, ok)
  }

  function ResolveMFS(env: Env, s: State, path: string): (State, Option<string>) {
    (Tick(s),
     if env.reply(MfsStatCall, s.clock).Success? && IsAbs(path) && Location(path) in s.mfs
     then Some(env.cidOf(Subtree(s.mfs, Location(path)))) else None)
  }

  ghost function Export(env: Env, s: State, path: string, dest: Tree): (State, Tree, bool) {
    var (s1, cid) := ResolveMFS(env, s, path);
    if cid.None? then (s1, dest, false) else GetCID(env, s1, cid.value, dest)
  }

  // ------------------------------------------------------------ import

  /** One visited path of the local walk: the root is skipped, a directory made, a file added and copied. */
  function CopyNode(env: Env, s: State, t: Tree, q: Path, p: Path): (State, bool)
    requires q in t
  {
    if q == [] then (s, true)
    else match t[q]
      case DirNode => MkdirAt(env, s, p + q)
      case FileNode(data) =>
        var (s1, ok) := AddFile(env, s, data);
        if ok then CpAt(env, s1, env.cidOf(FileTree(data)), p + q) else (s1, false)
  }

  /** The walk up to its first error. */
  ghost function CopyWalk(env: Env, s: State, t: Tree, w: seq<Path>, p: Path): (State, bool)
    requires forall q :: q in w ==> q in t
    decreases w
  {
    if w == [] then (s, true)
    else
      var (s1, ok) := CopyNode(env, s, t, w[0], p);
      if ok then CopyWalk(env, s1, t, w[1..], p) else (s1, false)
  }

  lemma {:induction false} CopyWalkOneMore(env: Env, s: State, t: Tree, w: seq<Path>, q: Path, p: Path)
    requires q in t && forall q :: q in w ==> q in t
    ensures
      var (s1, ok) := CopyWalk(env, s, t, w, p);
      CopyWalk(env, s, t, w + [q], p) == if ok then CopyNode(env, s1, t, q, p) else (s1, false)
    decreases w
  {
    if w == [] {
      assert (w + [q])[1..] == [];
    } else {
      var (s1, ok) := CopyNode(env, s, t, w[0], p);
      assert (w + [q])[1..] == w[1..] + [q];
      if ok {
        CopyWalkOneMore(env, s1, t, w[1..], q, p);
      }
    }
  }

  /** `local` is `None` when the local directory cannot be opened because it is missing. */
  ghost function Import(env: Env, s: State, local: Option<Tree>, path: string): (State, bool) {
    Fill(env, Rm(env, s, path).0, local, path)
  }

  ghost function Fill(env: Env, s: State, local: Option<Tree>, path: string): (State, bool) {
    var (s1, made) := Mkdir(env, s, path);
    if !made then (s1, false)
    else
      var (s2, canRead) := Consult(env, s1, LocalCall);
      if !canRead || local.None? then (s2, false)
      else CopyWalk(env, s2, local.value, Walk(local.value), Location(path))
  }

  /** Everything but MFS and the growing block store is left alone. */
  predicate OnlyMfs(s: State, s': State) {
    s'.pins == s.pins && s.blocks <= s'.blocks && s.clock <= s'.clock
  }

  /** What visiting one path may do to MFS: nothing, or put the visited node in its place. */
  ghost predicate NodeCopied(s: State, s': State, t: Tree, q: Path, p: Path)
    requires q in t
  {
    && OnlyMfs(s, s') && ValidDir(s'.mfs)
    && (s'.mfs == s.mfs || (q != [] && s'.mfs == s.mfs[p + q := t[q]]))
  }

  lemma {:induction false} CopyNodeResult(env: Env, s: State, t: Tree, q: Path, p: Path)
    requires Lawful(env) && ValidDir(s.mfs) && IsDir(s.mfs, p) && q in t
    requires q != [] ==> IsDir(s.mfs, p + Parent(q))
    ensures
      var (s', ok) := CopyNode(env, s, t, q, p);
      && NodeCopied(s, s', t, q, p)
      && (ok && q != [] ==> s'.mfs == s.mfs[p + q := t[q]])
      && (NoFailure(env, s.clock, s'.clock) && (q != [] ==> p + q !in s.mfs) ==> ok)
  {
    if q != [] {
      assert Parent(p + q) == p + Parent(q);
      match t[q] {
        case DirNode => MkdirUnderParent(s.mfs, p + q);
        case FileNode(data) => CopyFileResult(env, s, data, p + q);
      }
    }
  }

  lemma {:induction false} CopyFileResult(env: Env, s: State, data: seq<Byte>, k: Path)
    requires Lawful(env) && ValidDir(s.mfs) && k != [] && IsDir(s.mfs, Parent(k))
    ensures
      var (s1, added) := AddFile(env, s, data);
      var (s2, copied) := CpAt(env, s1, env.cidOf(FileTree(data)), k);
      && OnlyMfs(s, s1) && s1.mfs == s.mfs && OnlyMfs(s, s2) && ValidDir(s2.mfs)
      && (s2.mfs == s.mfs || s2.mfs == s.mfs[k := FileNode(data)])
      && (copied ==> s2.mfs == s.mfs[k := FileNode(data)])
      && (NoFailure(env, s.clock, s1.clock) ==> added)
      && (NoFailure(env, s.clock, s2.clock) && k !in s.mfs ==> copied)
  {
    assert ValidTree(FileTree(data));
    PlantFile(s.mfs, k, data);
    assert s.mfs + map[k := FileNode(data)] == s.mfs[k := FileNode(data)];
  }

  /** Where the parent exists, making a directory adds that directory and nothing else. */
  lemma {:induction false} MkdirUnderParent(fs: Tree, k: Path)
    requires ValidDir(fs) && k != [] && IsDir(fs, Parent(k))
    ensures CanMkdir(fs, k) ==> fs + Chain(k) == fs[k := DirNode] && ValidDir(fs[k := DirNode])
    ensures k !in fs ==> CanMkdir(fs, k)
  {
    forall a | a in fs && a <= k && a != k ensures fs[a].DirNode? {
      AboveParent(fs, k, a);
    }
    if CanMkdir(fs, k) {
      ChainValid(fs, k);
      forall a ensures a in fs + Chain(k) <==> a in fs[k := DirNode] {
        AboveParent(fs, k, a);
      }
      assert fs + Chain(k) == fs[k := DirNode];
    }
  }

  lemma {:induction false} AboveParent(fs: Tree, k: Path, a: Path)
    requires ValidDir(fs) && k != [] && IsDir(fs, Parent(k))
    ensures a <= k && a != k ==> IsDir(fs, a)
  {
    if a <= k && a != k && a != Parent(k) {
      assert a <= Parent(k);
      AncestorsAreDirs(fs, Parent(k), a);
    }
  }

  lemma {:induction false} PlantFile(fs: Tree, k: Path, data: seq<Byte>)
    requires ValidDir(fs) && k != []
    ensures Planted(k, FileTree(data)) == map[k := FileNode(data)]
    ensures CanCopyTo(fs, k) ==> ValidDir(fs[k := FileNode(data)])
  {
    forall a ensures a in Planted(k, FileTree(data)) <==> a == k {
      assert k <= a && a[|k|..] == [] ==> a == k;
    }
    if CanCopyTo(fs, k) {
      var t := fs[k := FileNode(data)];
      forall a | a in t && a != [] ensures IsDir(t, Parent(a)) {
        assert Parent(a) != k || a == k;
      }
    }
  }

  /**
   The walk over any prefix of the visiting order: it stays at and below the target,
   leaves a sound tree behind even when it stops early, adds exactly the visited part
   when it does not, and stops only for a call of its own that failed when nothing is in
   the way.
   */
  lemma {:induction false} CopyWalkResult(env: Env, s: State, t: Tree, n: nat, p: Path)
    requires Lawful(env) && ValidDir(s.mfs) && IsDir(s.mfs, p) && ValidDir(t) && n <= |Walk(t)|
    ensures
      var (s', ok) := CopyWalk(env, s, t, Walk(t)[..n], p);
      && Below(s, s', p)
      && (ok ==> s'.mfs == Copied(s.mfs, t, n, p))
      && (NoFailure(env, s.clock, s'.clock) && (forall q :: q in t && q != [] ==> p + q !in s.mfs) ==> ok)
  {
    hide CopyNode, Copied, ValidTree;
    var w := Walk(t);
    if n == 0 {
      CopiedNone(s.mfs, t, p);
    } else {
      hide Below;
      assert w[..n] == w[..n - 1] + [w[n - 1]];
      CopyWalkOneMore(env, s, t, w[..n - 1], w[n - 1], p);
      CopyWalkResult(env, s, t, n - 1, p);
      var (s1, ok1) := CopyWalk(env, s, t, w[..n - 1], p);
      BelowIsSound(s, s1, p);
      if ok1 {
        WalkStep(env, s, s1, t, n - 1, p);
      }
    }
  }

  /** Nothing but MFS at and below `p` has changed, and it is still a tree with a directory there. */
  ghost predicate Below(s: State, s': State, p: Path) {
    OnlyMfs(s, s') && ValidDir(s'.mfs) && IsDir(s'.mfs, p) && Outside(s'.mfs, p) == Outside(s.mfs, p)
  }

  /** MFS with the first `n` paths of the walk copied to `p`. */
  ghost function Copied(fs: Tree, t: Tree, n: nat, p: Path): Tree
    requires n <= |Walk(t)|
  {
    fs + Planted(p, Part(t, Walk(t)[..n]))
  }

  /** One more path of the walk. */
  lemma {:induction false} WalkStep(env: Env, s: State, s1: State, t: Tree, n: nat, p: Path)
    requires Lawful(env) && ValidDir(t) && n < |Walk(t)| && IsDir(s.mfs, p)
    requires Below(s, s1, p) && s1.mfs == Copied(s.mfs, t, n, p)
    ensures
      var (s2, ok) := CopyNode(env, s1, t, Walk(t)[n], p);
      && Below(s, s2, p) && s1.clock <= s2.clock
      && (s2.mfs == s1.mfs || s2.mfs == Copied(s.mfs, t, n + 1, p))
      && (ok ==> s2.mfs == Copied(s.mfs, t, n + 1, p))
      && (NoFailure(env, s1.clock, s2.clock) && (forall q :: q in t && q != [] ==> p + q !in s.mfs) ==> ok)
  {
    hide CopyNode, ValidTree, Planted, Part, Outside, Below;
    var (w, q) := (Walk(t), Walk(t)[n]);
    assert q in t;
    if q != [] {
      WalkIsParentFirst(t, n);
      ParentArrived(s.mfs, t, w[..n], p, q);
    } else {
      RootVisit(env, s1, t, q, p);
    }
    BelowIsSound(s, s1, p);
    CopyNodeResult(env, s1, t, q, p);
    StillBelow(s, s1, CopyNode(env, s1, t, q, p).0, t, q, p);
    OneMore(s.mfs, t, w, n, p);
    FreshTarget(s.mfs, t, w, n, p);
  }

  lemma {:induction false} BelowIsSound(s: State, s': State, p: Path)
    requires Below(s, s', p)
    ensures ValidDir(s'.mfs) && IsDir(s'.mfs, p) && s.clock <= s'.clock
  {
  }

  lemma {:induction false} StillBelow(s: State, s1: State, s2: State, t: Tree, q: Path, p: Path)
    requires q in t && Below(s, s1, p) && NodeCopied(s1, s2, t, q, p)
    ensures Below(s, s2, p)
  {
    hide ValidTree, Outside;
    NodeBelow(s1.mfs, p, q, t[q]);
  }

  lemma {:induction false} CopiedNone(fs: Tree, t: Tree, p: Path)
    ensures Copied(fs, t, 0, p) == fs
  {
    assert Planted(p, Part(t, Walk(t)[..0])) == map[];
  }

  /** Wherever the walk stops, exactly the paths visited up to some point have been copied. */
  lemma {:induction false} CopyWalkLeaves(env: Env, s: State, t: Tree, n: nat, p: Path) returns (m: nat)
    requires Lawful(env) && ValidDir(s.mfs) && IsDir(s.mfs, p) && ValidDir(t) && n <= |Walk(t)|
    ensures m <= n
    ensures
      var (s', ok) := CopyWalk(env, s, t, Walk(t)[..n], p);
      s'.mfs == Copied(s.mfs, t, m, p) && (ok ==> m == n)
  {
    hide CopyNode, Copied, Below, ValidTree;
    var w := Walk(t);
    m := 0;
    if n == 0 {
      CopiedNone(s.mfs, t, p);
    } else {
      assert w[..n] == w[..n - 1] + [w[n - 1]];
      CopyWalkOneMore(env, s, t, w[..n - 1], w[n - 1], p);
      CopyWalkResult(env, s, t, n - 1, p);
      m := CopyWalkLeaves(env, s, t, n - 1, p);
      var (s1, ok1) := CopyWalk(env, s, t, w[..n - 1], p);
      if ok1 {
        WalkStep(env, s, s1, t, n - 1, p);
        if CopyNode(env, s1, t, w[n - 1], p).0.mfs != s1.mfs || CopyNode(env, s1, t, w[n - 1], p).1 {
          m := n;
        }
      }
    }
  }

  lemma {:induction false} RootVisit(env: Env, s: State, t: Tree, q: Path, p: Path)
    requires q in t
    ensures q == [] ==> CopyNode(env, s, t, q, p) == (s, true)
  {
  }

  lemma {:induction false} ParentArrived(fs: Tree, t: Tree, w: seq<Path>, p: Path, q: Path)
    requires ValidDir(t) && q in t && q != [] && Parent(q) in w
    ensures IsDir(fs + Planted(p, Part(t, w)), p + Parent(q))
  {
    assert (p + Parent(q))[|p|..] == Parent(q);
  }

  lemma {:induction false} OneMore(fs: Tree, t: Tree, w: seq<Path>, m: nat, p: Path)
    requires m < |w| && w[m] in t && IsDir(fs, p) && IsDir(t, [])
    ensures
      var some, more := fs + Planted(p, Part(t, w[..m])), fs + Planted(p, Part(t, w[..m + 1]));
      more == if w[m] == [] then some else some[p + w[m] := t[w[m]]]
  {
    PlantOneMore(t, w, m, p);
    assert p + [] == p && p[|p|..] == [];
    UnionUpdate(fs, Planted(p, Part(t, w[..m])), p + w[m], t[w[m]]);
  }

  lemma {:induction false} PlantOneMore(t: Tree, w: seq<Path>, m: nat, p: Path)
    requires m < |w| && w[m] in t
    ensures Planted(p, Part(t, w[..m + 1])) == Planted(p, Part(t, w[..m]))[p + w[m] := t[w[m]]]
  {
    var more, some := Planted(p, Part(t, w[..m + 1])), Planted(p, Part(t, w[..m]))[p + w[m] := t[w[m]]];
    forall k ensures At(more, k) == At(some, k) {
      OneMoreAt(t, w, m, p, k);
    }
    SameTree(more, some);
  }

  lemma {:induction false} UnionUpdate(a: Tree, b: Tree, k: Path, node: Node)
    ensures a + b[k := node] == (a + b)[k := node]
    ensures k in a + b && (a + b)[k] == node ==> a + b[k := node] == a + b
  {
  }

  lemma {:induction false} OneMoreAt(t: Tree, w: seq<Path>, m: nat, p: Path, k: Path)
    requires m < |w| && w[m] in t
    ensures At(Planted(p, Part(t, w[..m + 1])), k) == At(Planted(p, Part(t, w[..m]))[p + w[m] := t[w[m]]], k)
  {
    PlantedAt(p, Part(t, w[..m + 1]), k);
    PlantedAt(p, Part(t, w[..m]), k);
    if p <= k {
      var q := k[|p|..];
      assert k == p + q && (p + w[m])[|p|..] == w[m];
      assert q in w[..m + 1] <==> q in w[..m] || q == w[m];
    }
  }

  lemma {:induction false} FreshTarget(fs: Tree, t: Tree, w: seq<Path>, m: nat, p: Path)
    requires m < |w| && forall i, j :: 0 <= i < j < |w| ==> w[i] != w[j]
    ensures p + w[m] !in fs ==> p + w[m] !in fs + Planted(p, Part(t, w[..m]))
  {
    assert (p + w[m])[|p|..] == w[m];
    assert w[m] !in w[..m];
  }

  lemma {:induction false} NodeBelow(fs: Tree, p: Path, q: Path, node: Node)
    ensures Outside(fs[p + q := node], p) == Outside(fs, p)
    ensures IsDir(fs, p) && q != [] ==> IsDir(fs[p + q := node], p)
  {
    assert p <= p + q;
    assert q != [] ==> p + q != p;
  }

  // ------------------------------------------------------------ what an import achieves

  /** What the import finds at the target once its removal has been tried. */
  function Leftover(env: Env, s: State, p: Path): Tree {
    if Clears(env, s.clock, p) then Outside(s.mfs, p) else s.mfs
  }

  /**
   The import as a whole, for every tree, target and schedule: it touches nothing
   outside the target but missing ancestors, keeps MFS sound, and on success lays the
   local tree exactly over what the removal left.
   */
  lemma {:induction false} ImportResult(env: Env, s: State, t: Tree, path: string)
    requires Lawful(env) && ValidDir(s.mfs) && ValidDir(t)
    ensures
      var (s', ok) := Import(env, s, Some(t), path);
      var p := Location(path);
      && Kept(s, s', p)
      && (ok ==> IsAbs(path) && s'.mfs == Overlay(Leftover(env, s, p), p, t))
      && (NoFailure(env, s.clock, s'.clock) && IsAbs(path) && Free(s.mfs, p) ==> ok)
  {
    var p := Location(path);
    if IsAbs(path) {
      var s1 := RmAt(env, s, p).0;
      RemovalLeaves(env, s, p);
      OutsideOfChain(s.mfs, s1.mfs, p);
      FillKeeps(env, s1, t, path);
      FillOverlays(env, s1, t, path);
      if Free(s.mfs, p) {
        FreeAfterRemoval(env, s, p);
        FillSucceeds(env, s1, t, path);
      }
    }
  }

  /** Once removed, `p` can be made again with nothing in it; the root itself has to be empty already. */
  ghost predicate Free(fs: Tree, p: Path) { CanMkdir(Outside(fs, p), p) && (p == [] ==> NoneBelow(fs, p)) }

  lemma {:induction false} FreeAfterRemoval(env: Env, s: State, p: Path)
    requires ValidDir(s.mfs) && Free(s.mfs, p)
    ensures
      var s1 := RmAt(env, s, p).0;
      NoFailure(env, s.clock, s1.clock) ==> CanMkdir(s1.mfs, p) && NoneBelow(s1.mfs, p)
  {
    RemovalLeaves(env, s, p);
    var s1 := RmAt(env, s, p).0;
    assert s1.clock == s.clock + 1;
    if p != [] && NoFailure(env, s.clock, s1.clock) {
      assert env.reply(RmCall, s.clock).Success?;
    }
  }

  /** Everything away from `p` is kept, except that missing ancestors of `p` may appear. */
  ghost predicate KeptAround(fs: Tree, fs': Tree, p: Path) {
    && ValidDir(fs')
    && (|| Outside(fs', p) == Outside(fs, p)
        || (CanMkdir(Outside(fs, p), p) && Outside(fs', p) == Outside(fs + Chain(p), p)))
  }

  ghost predicate Kept(s: State, s': State, p: Path) { OnlyMfs(s, s') && KeptAround(s.mfs, s'.mfs, p) }

  lemma {:induction false} FillKeeps(env: Env, s: State, t: Tree, path: string)
    requires Lawful(env) && ValidDir(s.mfs) && ValidDir(t) && IsAbs(path)
    ensures Kept(s, Fill(env, s, Some(t), path).0, Location(path))
  {
    MkdirResult(env, s, Location(path));
    var (s1, made) := MkdirAt(env, s, Location(path));
    if made {
      FullWalk(env, Tick(s1), t, Location(path));
    }
  }

  lemma {:induction false} FillOverlays(env: Env, s: State, t: Tree, path: string)
    requires Lawful(env) && ValidDir(s.mfs) && ValidDir(t) && IsAbs(path)
    ensures
      var (s', ok) := Fill(env, s, Some(t), path);
      ok ==> s'.mfs == Overlay(s.mfs, Location(path), t)
  {
    MkdirResult(env, s, Location(path));
    var (s1, made) := MkdirAt(env, s, Location(path));
    if made {
      FullWalk(env, Tick(s1), t, Location(path));
    }
  }

  lemma {:induction false} FillSucceeds(env: Env, s: State, t: Tree, path: string)
    requires Lawful(env) && ValidDir(s.mfs) && ValidDir(t) && IsAbs(path)
    ensures
      var (s', ok) := Fill(env, s, Some(t), path);
      var p := Location(path);
      && s.clock <= s'.clock
      && (NoFailure(env, s.clock, s'.clock) && CanMkdir(s.mfs, p) && NoneBelow(s.mfs, p) ==> ok)
  {
    hide CopyWalk, Location, MkdirAt, CanMkdir, Planted, Outside, ValidTree;
    var p := Location(path);
    MkdirResult(env, s, p);
    var (s1, made) := MkdirAt(env, s, p);
    if made {
      FullWalk(env, Tick(s1), t, p);
      if NoneBelow(s.mfs, p) {
        NothingInTheWay(s.mfs, p);
      }
    }
  }

  lemma {:induction false} NothingInTheWay(fs: Tree, p: Path)
    requires NoneBelow(fs, p)
    ensures forall q: Path :: q != [] ==> p + q !in fs + Chain(p)
  {
    forall q: Path | q != [] ensures p + q !in fs + Chain(p) {
      assert p < p + q;
    }
  }

  ghost predicate NoneBelow(fs: Tree, p: Path) { forall k :: k in fs ==> !(p < k) }

  lemma {:induction false} MkdirResult(env: Env, s: State, p: Path)
    requires ValidDir(s.mfs)
    ensures
      var (s', ok) := MkdirAt(env, s, p);
      && OnlyMfs(s, s') && ValidDir(s'.mfs)
      && (s'.mfs == s.mfs || (CanMkdir(s.mfs, p) && s'.mfs == s.mfs + Chain(p)))
      && (ok ==> CanMkdir(s.mfs, p) && s'.mfs == s.mfs + Chain(p) && IsDir(s'.mfs, p))
      && s'.clock == s.clock + 1
      && (NoFailure(env, s.clock, s'.clock) && CanMkdir(s.mfs, p) ==> ok)
  {
    if CanMkdir(s.mfs, p) {
      ChainValid(s.mfs, p);
    }
  }

  lemma {:induction false} FullWalk(env: Env, s: State, t: Tree, p: Path)
    requires Lawful(env) && ValidDir(s.mfs) && IsDir(s.mfs, p) && ValidDir(t)
    ensures
      var (s', ok) := CopyWalk(env, s, t, Walk(t), p);
      && OnlyMfs(s, s') && ValidDir(s'.mfs)
      && Outside(s'.mfs, p) == Outside(s.mfs, p)
      && (ok ==> s'.mfs == s.mfs + Planted(p, t))
      && (NoFailure(env, s.clock, s'.clock) && (forall q :: q in t && q != [] ==> p + q !in s.mfs) ==> ok)
  {
    var w := Walk(t);
    assert w[..|w|] == w && Part(t, w) == t;
    CopyWalkResult(env, s, t, |w|, p);
  }

  lemma {:induction false} RemovalLeaves(env: Env, s: State, p: Path)
    requires ValidDir(s.mfs)
    ensures
      var s1 := RmAt(env, s, p).0;
      s1 == Tick(s).(mfs := Leftover(env, s, p)) && ValidDir(s1.mfs) && Outside(s1.mfs, p) == Outside(s.mfs, p)
  {
    if p != [] {
      OutsideValid(s.mfs, p);
    }
    if p !in s.mfs {
      OutsideAbsent(s.mfs, p);
    }
    assert Outside(Outside(s.mfs, p), p) == Outside(s.mfs, p);
  }

  lemma {:induction false} OutsideOfChain(fs: Tree, fs1: Tree, p: Path)
    requires Outside(fs1, p) == Outside(fs, p)
    ensures Outside(fs1 + Chain(p), p) == Outside(fs + Chain(p), p)
  {
    forall k ensures At(Outside(fs1 + Chain(p), p), k) == At(Outside(fs + Chain(p), p), k) {
      assert At(Outside(fs1, p), k) == At(Outside(fs, p), k);
    }
    SameTree(Outside(fs1 + Chain(p), p), Outside(fs + Chain(p), p));
  }

  /** What stands at a target once it is made and the first `m` paths of the walk have been copied. */
  ghost function Arrived(t: Tree, m: nat): Tree
    requires m <= |Walk(t)|
  {
    EMPTY_DIR + Part(t, Walk(t)[..m])
  }

  lemma {:induction false} ArrivedEnds(t: Tree)
    requires IsDir(t, [])
    ensures Arrived(t, 0) == EMPTY_DIR && Arrived(t, |Walk(t)|) == t
  {
    var w := Walk(t);
    assert w[..|w|] == w && w[..0] == [];
    assert Part(t, w) == t && Part(t, []) == map[];
    hide Walk;
    assert EMPTY_DIR + t == t && EMPTY_DIR + map[] == EMPTY_DIR;
  }

  lemma {:induction false} ArrivedOverlay(fs: Tree, p: Path, t: Tree, m: nat)
    requires m <= |Walk(t)| && IsDir(t, [])
    ensures Copied(fs + Chain(p), t, m, p) == Overlay(fs, p, Arrived(t, m))
  {
    RootedOverlay(fs, p, Part(t, Walk(t)[..m]));
  }

  lemma {:induction false} ArrivedPart(t: Tree, m: nat)
    requires m <= |Walk(t)| && IsDir(t, [])
    ensures IsDir(Arrived(t, m), []) && LiesIn(Arrived(t, m), t)
  {
  }

  /** What has got into the target; nothing if there is no local directory. */
  ghost function Done(local: Option<Tree>, m: nat): Tree
    requires local.Some? ==> m <= |Walk(local.value)|
  {
    if local.Some? then Arrived(local.value, m) else EMPTY_DIR
  }

  /** The target of an import is made anew: what the removal left allows it, and the call, its second, goes through. */
  predicate Remakes(env: Env, s: State, p: Path) {
    CanMkdir(Leftover(env, s, p), p) && !env.reply(MkdirCall, s.clock + 1).Refused?
  }

  /** How far a walk gets: when it ends, whether it came to its end, and how many paths were copied. */
  datatype Progress = Progress(clock: nat, ok: bool, count: nat)

  function Answered(reply: Reply, clock: nat, n: nat): Progress
    requires n > 0
  {
    Progress(clock, reply.Success?, if reply.Refused? then n - 1 else n)
  }

  /** Visiting the `n`-th path at this moment, with nothing in the way, as the replies decide. */
  ghost function Visit(env: Env, now: nat, t: Tree, n: nat): Progress
    requires 0 < n <= |Walk(t)|
  {
    var q := Walk(t)[n - 1];
    assert q in t;
    if q == [] then Progress(now, true, n)
    else match t[q]
      case DirNode => Answered(env.reply(MkdirCall, now), now + 1, n)
      case FileNode(_) =>
        if env.reply(AddCall, now).Success? then Answered(env.reply(CpCall, now + 1), now + 2, n)
        else Progress(now + 1, false, n - 1)
  }

  /** The walk over the first `n` paths from this moment on. */
  ghost function Replay(env: Env, now: nat, t: Tree, n: nat): Progress
    requires n <= |Walk(t)|
  {
    if n == 0 then Progress(now, true, 0)
    else
      var before := Replay(env, now, t, n - 1);
      if before.ok then Visit(env, before.clock, t, n) else before
  }

  /** How many paths get into a target that is made at this moment and empty then. */
  ghost function Reached(env: Env, now: nat, t: Tree): nat {
    if env.reply(MkdirCall, now).Success? && env.reply(LocalCall, now + 1).Success?
    then Replay(env, now + 2, t, |Walk(t)|).count else 0
  }

  lemma {:induction false} CopyNodeReplays(env: Env, s: State, t: Tree, n: nat, p: Path)
    requires Lawful(env) && ValidDir(s.mfs) && IsDir(s.mfs, p) && 0 < n <= |Walk(t)|
    requires
      var q := Walk(t)[n - 1];
      q in t && (q != [] ==> IsDir(s.mfs, p + Parent(q)) && p + q !in s.mfs)
    ensures
      var q := Walk(t)[n - 1];
      var (s', ok) := CopyNode(env, s, t, q, p);
      var v := Visit(env, s.clock, t, n);
      && s'.clock == v.clock && ok == v.ok && n - 1 <= v.count <= n && (ok ==> v.count == n)
      && s'.mfs == if v.count == n && q != [] then s.mfs[p + q := t[q]] else s.mfs
  {
    hide Walk, ValidTree, Chain, Planted;
    var q := Walk(t)[n - 1];
    if q != [] {
      assert Parent(p + q) == p + Parent(q);
      match t[q] {
        case DirNode => MkdirUnderParent(s.mfs, p + q);
        case FileNode(data) =>
          assert ValidTree(FileTree(data)) by { FileIsTree(data); }
          PlantFile(s.mfs, p + q, data);
          assert s.mfs + map[p + q := FileNode(data)] == s.mfs[p + q := FileNode(data)];
      }
    }
  }

  lemma {:induction false} FileIsTree(data: seq<Byte>)
    ensures ValidTree(FileTree(data))
  {
  }

  /** With nothing in the way, the replies alone decide how far the walk gets. */
  lemma {:induction false} WalkReplays(env: Env, s: State, t: Tree, n: nat, p: Path)
    requires Lawful(env) && ValidDir(s.mfs) && IsDir(s.mfs, p) && ValidDir(t) && n <= |Walk(t)|
    requires forall q :: q in t && q != [] ==> p + q !in s.mfs
    ensures
      var (s', ok) := CopyWalk(env, s, t, Walk(t)[..n], p);
      var v := Replay(env, s.clock, t, n);
      && s'.clock == v.clock && ok == v.ok && v.count <= n && (ok ==> v.count == n)
      && s'.mfs == Copied(s.mfs, t, v.count, p)
  {
    hide CopyNode, Copied, ValidTree, Visit, Below;
    var w := Walk(t);
    if n == 0 {
      CopiedNone(s.mfs, t, p);
    } else {
      var q := w[n - 1];
      assert w[..n] == w[..n - 1] + [q];
      CopyWalkOneMore(env, s, t, w[..n - 1], q, p);
      CopyWalkResult(env, s, t, n - 1, p);
      WalkReplays(env, s, t, n - 1, p);
      var (s1, ok1) := CopyWalk(env, s, t, w[..n - 1], p);
      if ok1 {
        BelowIsSound(s, s1, p);
        NextIsFresh(s.mfs, t, n, p);
        CopyNodeReplays(env, s1, t, n, p);
        CopiedMore(s.mfs, t, n, p);
      }
    }
  }

  lemma {:induction false} NextIsFresh(fs: Tree, t: Tree, n: nat, p: Path)
    requires ValidDir(t) && 0 < n <= |Walk(t)| && forall q :: q in t && q != [] ==> p + q !in fs
    ensures
      var q := Walk(t)[n - 1];
      && q in t
      && (q != [] ==> IsDir(Copied(fs, t, n - 1, p), p + Parent(q)) && p + q !in Copied(fs, t, n - 1, p))
  {
    hide Planted, Part, ValidTree;
    var (w, q) := (Walk(t), Walk(t)[n - 1]);
    assert q in w;
    if q != [] {
      WalkIsParentFirst(t, n - 1);
      ParentArrived(fs, t, w[..n - 1], p, q);
      FreshTarget(fs, t, w, n - 1, p);
    }
  }

  lemma {:induction false} CopiedMore(fs: Tree, t: Tree, n: nat, p: Path)
    requires ValidDir(t) && 0 < n <= |Walk(t)| && IsDir(fs, p)
    ensures
      var q := Walk(t)[n - 1];
      && q in t
      && Copied(fs, t, n, p) == if q == [] then Copied(fs, t, n - 1, p) else Copied(fs, t, n - 1, p)[p + q := t[q]]
  {
    hide Planted, Part, ValidTree;
    assert Walk(t)[n - 1] in Walk(t);
    OneMore(fs, t, Walk(t), n - 1, p);
  }

  /**
   What every import leaves, failing ones included: nothing but the removal, or over what
   that left a part of the local tree, up to some point of the walk; all of it on success.
   Where the removal took effect, the replies alone decide up to which point.
   */
  lemma {:induction false} ImportLeaves(env: Env, s: State, local: Option<Tree>, path: string) returns (m: nat)
    requires ValidDir(s.mfs) && IsAbs(path) && (local.Some? ==> Lawful(env) && ValidDir(local.value))
    ensures local.Some? ==> m <= |Walk(local.value)|
    ensures
      var p := Location(path);
      var (s', ok) := Import(env, s, local, path);
      var (cleared, remade) := (Clears(env, s.clock, p), Remakes(env, s, p));
      && s'.mfs == Landed(s.mfs, p, cleared, remade, Done(local, m)) && s'.pins == s.pins
      && (ok ==> local.Some? && remade && m == |Walk(local.value)|)
      && (cleared && remade && local.Some? ==> m == Reached(env, s.clock + 1, local.value))
  {
    hide Location, Fill, Overlay, CanMkdir, Arrived, ValidTree, Outside, Reached;
    var p := Location(path);
    RemovalLeaves(env, s, p);
    NoneBelowOutside(s.mfs, p);
    var s1 := RmAt(env, s, p).0;
    m := 0;
    if local.Some? {
      m := FillLeaves(env, s1, local.value, path);
    } else {
      FillNothing(env, s1, path);
    }
  }

  lemma {:induction false} NoneBelowOutside(fs: Tree, p: Path)
    ensures NoneBelow(Outside(fs, p), p)
  {
  }

  lemma {:induction false} FillNothing(env: Env, s: State, path: string)
    requires ValidDir(s.mfs) && IsAbs(path)
    ensures
      var p := Location(path);
      var (s', ok) := Fill(env, s, None, path);
      var made := CanMkdir(s.mfs, p) && !env.reply(MkdirCall, s.clock).Refused?;
      !ok && s'.pins == s.pins && s'.mfs == if made then Overlay(s.mfs, p, EMPTY_DIR) else s.mfs
  {
    hide Location, Overlay, CanMkdir, ValidTree, Chain;
    BareOverlay(s.mfs, Location(path));
  }

  lemma {:induction false} FillLeaves(env: Env, s: State, t: Tree, path: string) returns (m: nat)
    requires Lawful(env) && ValidDir(s.mfs) && ValidDir(t) && IsAbs(path)
    ensures m <= |Walk(t)|
    ensures
      var p := Location(path);
      var (s', ok) := Fill(env, s, Some(t), path);
      var made := CanMkdir(s.mfs, p) && !env.reply(MkdirCall, s.clock).Refused?;
      && s'.mfs == (if made then Overlay(s.mfs, p, Arrived(t, m)) else s.mfs) && s'.pins == s.pins
      && (ok ==> made && m == |Walk(t)|)
      && (made && NoneBelow(s.mfs, p) ==> m == Reached(env, s.clock, t))
  {
    hide Location, CopyWalk, Overlay, CanMkdir, Arrived, ValidTree, Chain, Copied, NoFailure, Lawful, Replay, NoneBelow,
         Walk;
    var p := Location(path);
    MkdirResult(env, s, p);
    ArrivedEnds(t);
    BareOverlay(s.mfs, p);
    m := 0;
    var (s1, made) := MkdirAt(env, s, p);
    if made && env.reply(LocalCall, s1.clock).Success? {
      if NoneBelow(s.mfs, p) {
        NothingInTheWay(s.mfs, p);
      }
      m := FullWalkLeaves(env, Tick(s1), t, p, NoneBelow(s.mfs, p));
      ArrivedOverlay(s.mfs, p, t, m);
    }
  }

  lemma {:induction false} FullWalkLeaves(env: Env, s: State, t: Tree, p: Path, bare: bool) returns (m: nat)
    requires Lawful(env) && ValidDir(s.mfs) && IsDir(s.mfs, p) && ValidDir(t)
    requires bare ==> forall q: Path :: q != [] ==> p + q !in s.mfs
    ensures m <= |Walk(t)|
    ensures
      var (s', ok) := CopyWalk(env, s, t, Walk(t), p);
      && s'.mfs == Copied(s.mfs, t, m, p) && s'.pins == s.pins && (ok ==> m == |Walk(t)|)
      && (bare ==> m == Replay(env, s.clock, t, |Walk(t)|).count)
  {
    hide CopyWalk, ValidTree, Copied, Replay, Below;
    var w := Walk(t);
    assert w[..|w|] == w;
    CopyWalkResult(env, s, t, |w|, p);
    BelowKeepsPins(s, CopyWalk(env, s, t, w, p).0, p);
    if bare {
      WalkReplays(env, s, t, |w|, p);
      m := Replay(env, s.clock, t, |w|).count;
    } else {
      m := CopyWalkLeaves(env, s, t, |w|, p);
    }
  }

  lemma {:induction false} BelowKeepsPins(s: State, s': State, p: Path)
    requires Below(s, s', p)
    ensures s'.pins == s.pins
  {
  }

  /**
   When a successful import is an exact mirror: exactly if the removal took effect or
   nothing stood at the target that the local tree does not have. A failed removal is
   only logged, so stale entries survive otherwise.
   */
  lemma {:induction false} MirrorExactly(env: Env, s: State, t: Tree, path: string)
    requires Lawful(env) && ValidDir(s.mfs) && ValidDir(t)
    requires Import(env, s, Some(t), path).1
    ensures
      var p := Location(path);
      Subtree(Import(env, s, Some(t), path).0.mfs, p) == t <==>
        Clears(env, s.clock, p) || Subtree(s.mfs, p).Keys <= t.Keys
  {
    var p := Location(path);
    ImportResult(env, s, t, path);
    SubtreeOfOverlay(Leftover(env, s, p), p, t);
    NothingAt(s.mfs, p);
    UnionIsRight(Subtree(s.mfs, p), t);
  }

  lemma {:induction false} ImportMirrors(env: Env, s: State, t: Tree, path: string)
    requires Lawful(env) && ValidDir(s.mfs) && ValidDir(t) && Clears(env, s.clock, Location(path))
    ensures
      var (s', ok) := Import(env, s, Some(t), path);
      var p := Location(path);
      && ValidDir(s'.mfs)
      && (ok ==> Subtree(s'.mfs, p) == t)
      && (NoFailure(env, s.clock, s'.clock) && IsAbs(path) && Free(s.mfs, p) ==> ok)
  {
    ImportResult(env, s, t, path);
    if Import(env, s, Some(t), path).1 {
      MirrorExactly(env, s, t, path);
    }
  }

  /**
   The failing family of `MirrorExactly` is real: when only the removal is refused, an
   import of an empty directory succeeds and every old entry is still there.
   */
  lemma {:induction false} StaleEntriesSurvive(env: Env, s: State, path: string)
    requires IsAbs(path) && ValidDir(s.mfs) && IsDir(s.mfs, Location(path)) && !Clears(env, s.clock, Location(path))
    ensures
      var (s', ok) := Import(env, s, Some(EMPTY_DIR), path);
      NoFailure(env, s.clock + 1, s'.clock) ==> ok && s'.mfs == s.mfs
  {
    var p := Location(path);
    forall k | k <= p ensures IsDir(s.mfs, k) {
      if k != p {
        AncestorsAreDirs(s.mfs, p, k);
      }
    }
    assert forall k :: k in Chain(p) ==> IsDir(s.mfs, k);
    assert s.mfs + Chain(p) == s.mfs;
    EmptyWalk(env, Tick(Tick(Tick(s))), p);
  }

  lemma {:induction false} EmptyWalk(env: Env, s: State, p: Path)
    ensures CopyWalk(env, s, EMPTY_DIR, Walk(EMPTY_DIR), p) == (s, true)
  {
    var w := Walk(EMPTY_DIR);
    assert [] in w;
    assert forall i :: 0 <= i < |w| ==> w[i] in EMPTY_DIR;
    assert |w| == 1;
  }

  /**
   A failed import can be repaired: from whatever state it left, the next import of the
   same directory whose removal takes effect ends, if it succeeds, with MFS showing that
   directory; and it does succeed when none of its calls fails and no file stands where an
   ancestor of the target has to be.
   */
  lemma {:induction false} FailedImportRecovers(env: Env, s: State, t: Tree, path: string)
    requires Lawful(env) && ValidDir(s.mfs) && ValidDir(t)
    ensures
      var p := Location(path);
      var s1 := Import(env, s, Some(t), path).0;
      var (s2, ok) := Import(env, s1, Some(t), path);
      && (ok && Clears(env, s1.clock, p) ==> Subtree(s2.mfs, p) == t)
      && (NoFailure(env, s1.clock, s2.clock) && IsAbs(path) && p != [] && Free(s.mfs, p) ==>
            ok && Subtree(s2.mfs, p) == t)
  {
    var p := Location(path);
    ImportResult(env, s, t, path);
    var s1 := Import(env, s, Some(t), path).0;
    ImportResult(env, s1, t, path);
    if Import(env, s1, Some(t), path).1 {
      MirrorExactly(env, s1, t, path);
    }
    if p != [] && Free(s.mfs, p) {
      StillFree(s.mfs, s1.mfs, p);
    }
    ImportTakesTime(env, s1, Some(t), path);
  }

  lemma {:induction false} StillFree(fs: Tree, fs': Tree, p: Path)
    requires KeptAround(fs, fs', p) && p != [] && Free(fs, p)
    ensures Free(fs', p)
  {
    forall k | k in Outside(fs', p) && k <= p ensures Outside(fs', p)[k].DirNode? {
      assert k in Outside(fs, p) || k in Chain(p);
    }
  }

  lemma {:induction false} ImportTakesTime(env: Env, s: State, local: Option<Tree>, path: string)
    ensures s.clock < Import(env, s, local, path).0.clock
  {
    hide CopyWalk, Location, CanMkdir;
    var s1 := Rm(env, s, path).0;
    var (s2, made) := Mkdir(env, s1, path);
    if made && local.Some? {
      WalkTakesTime(env, Tick(s2), local.value, Walk(local.value), Location(path));
    }
  }

  lemma {:induction false} WalkTakesTime(env: Env, s: State, t: Tree, w: seq<Path>, p: Path)
    requires forall q :: q in w ==> q in t
    ensures s.clock <= CopyWalk(env, s, t, w, p).0.clock
    decreases w
  {
    if w != [] {
      var (s1, ok) := CopyNode(env, s, t, w[0], p);
      if ok {
        WalkTakesTime(env, s1, t, w[1..], p);
      }
    }
  }

  // ------------------------------------------------------------ download and export

  /** Content that is held, or that a peer can serve, arrives complete in an empty directory. */
  lemma {:induction false} DownloadResult(env: Env, s: State, cid: string)
    requires Lawful(env)
    ensures
      var (s', out, ok) := GetCID(env, s, cid, EMPTY_DIR);
      && s'.pins == s.pins && s'.mfs == s.mfs && s.blocks <= s'.blocks && s'.clock == s.clock + 1
      && (ok ==> Reachable(env, s, cid) && out == Materialized(env.content(cid)) && s'.blocks == s.blocks + {cid})
      && Between(EMPTY_DIR, out, Materialized(env.content(cid)))
      && (ok <==> Reachable(env, s, cid) && env.reply(GetCall, s.clock).Success?)
  {
    hide WriteNode, Materialized, Held;
    WriteIntoEmpty(env.content(cid));
    BothEnds(Materialized(env.content(cid)));
  }

  /** Nothing and everything are both possible outcomes of breaking off. */
  lemma {:induction false} BothEnds(t: Tree)
    requires ValidDir(t)
    ensures ValidDir(EMPTY_DIR) && Between(EMPTY_DIR, EMPTY_DIR, t) && Between(EMPTY_DIR, t, t)
  {
  }

  /** An export shows exactly the tree at the path, by way of its CID. */
  lemma {:induction false} ExportResult(env: Env, s: State, path: string)
    requires Lawful(env) && ValidDir(s.mfs)
    ensures
      var (s', out, ok) := Export(env, s, path, EMPTY_DIR);
      && s'.pins == s.pins && s'.mfs == s.mfs && s.blocks <= s'.blocks && s.clock <= s'.clock
      && ValidDir(out)
      && (ok ==> IsAbs(path) && Location(path) in s.mfs && out == Materialized(Subtree(s.mfs, Location(path))))
      && (NoFailure(env, s.clock, s'.clock) && IsAbs(path) && Location(path) in s.mfs ==> ok)
  {
    var (s1, cid) := ResolveMFS(env, s, path);
    if cid.Some? {
      SubtreeValid(s.mfs, Location(path));
      DownloadResult(env, s1, cid.value);
    }
  }

  // ------------------------------------------------------------ the client object

  class Client {
    const env: Env
    var st: State

    constructor (env: Env, st: State)
      ensures this.env == env && this.st == st
    {
      this.env, this.st := env, st;
    }

    method Ask(call: Call) returns (ok: bool)
      modifies this
      ensures (st, ok) == Consult(env, old(st), call)
    {
      ok := env.reply(call, st.clock).Success?;
      st := Tick(st);
    }

    /** Tells content that can be had from content that cannot, and both from a failing call. */
    method StatCID(cid: string) returns (found: Result<bool>)
      modifies this
      ensures (st, found) == Stat(env, old(st), cid)
      ensures st == Tick(old(st))
      ensures found == Ok(true) ==> Reachable(env, old(st), cid)
      ensures found == Ok(false) ==> cid !in st.blocks && !env.remote(cid, old(st).clock)
    {
      var answered := env.reply(StatCall, st.clock).Success?;
      found := if !answered then Err(Internal) else Ok(Reachable(env, st, cid));
      st := Tick(st);
    }

    method GetCIDContent(cid: string, dest: Tree) returns (out: Tree, ok: bool)
      modifies this
      ensures (st, out, ok) == GetCID(env, old(st), cid, dest)
    {
      var reply := env.reply(GetCall, st.clock);
      out, ok := dest, false;
      if Reachable(env, st, cid) && !reply.Refused? {
        out, ok := WriteNodeToDir(env.content(cid), dest);
        if reply.Lost? {
          out, ok := Torn(env, st.clock, dest, out), false;
        } else {
          st := st.(blocks := st.blocks + {cid});
        }
      }
      st := Tick(st);
    }

    /** Success means pinned and held; a failing call may have pinned all the same; nothing else is touched. */
    method PinCID(cid: string) returns (ok: bool)
      modifies this
      ensures (st, ok) == Pin(env, old(st), cid)
      ensures ok ==> cid in st.pins && cid in st.blocks
      ensures old(st).pins <= st.pins <= old(st).pins + {cid} && st.mfs == old(st).mfs
    {
      var reply := env.reply(PinCall, st.clock);
      if !reply.Refused? {
        st := st.(pins := st.pins + {cid}, blocks := st.blocks + {cid});
      }
      st := Tick(st);
      ok := reply.Success?;
    }

    /** Success means it was pinned and no longer is; no other pin and no content is touched. */
    method UnpinCID(cid: string) returns (ok: bool)
      modifies this
      ensures (st, ok) == Unpin(env, old(st), cid)
      ensures ok ==> cid in old(st).pins && cid !in st.pins
      ensures old(st).pins - {cid} <= st.pins <= old(st).pins && st.mfs == old(st).mfs && st.blocks == old(st).blocks
    {
      var reply := env.reply(UnpinCall, st.clock);
      ok := false;
      if cid in st.pins {
        if !reply.Refused? {
          st := st.(pins := st.pins - {cid});
        }
        ok := reply.Success?;
      }
      st := Tick(st);
    }

    /** Success means the directory is there with all its ancestors; what stood elsewhere still does. */
    method MkdirMFS(path: string) returns (ok: bool)
      modifies this
      ensures (st, ok) == Mkdir(env, old(st), path)
      ensures ok ==> IsAbs(path) && forall k :: k <= Location(path) ==> IsDir(st.mfs, k)
      ensures forall k :: !(k <= Location(path)) ==> (k in st.mfs <==> k in old(st).mfs)
      ensures forall k :: k in old(st).mfs ==> k in st.mfs && st.mfs[k] == old(st).mfs[k]
      ensures st.pins == old(st).pins && st.blocks == old(st).blocks
    {
      var reply, p := env.reply(MkdirCall, st.clock), Location(path);
      ok := false;
      if IsAbs(path) && CanMkdir(st.mfs, p) {
        if !reply.Refused? {
          st := st.(mfs := st.mfs + Chain(p));
        }
        ok := reply.Success?;
      }
      st := Tick(st);
    }

    /** Success means something stood there and nothing does any more; everything elsewhere is kept. */
    method RmMFS(path: string) returns (ok: bool)
      modifies this
      ensures (st, ok) == Rm(env, old(st), path)
      ensures ok ==> Location(path) in old(st).mfs && forall k :: k in st.mfs ==> !(Location(path) <= k)
      ensures Outside(st.mfs, Location(path)) == Outside(old(st).mfs, Location(path))
      ensures st.pins == old(st).pins && st.blocks == old(st).blocks
    {
      var reply, p := env.reply(RmCall, st.clock), Location(path);
      ok := false;
      if IsAbs(path) && p != [] && p in st.mfs {
        if !reply.Refused? {
          st := st.(mfs := Outside(st.mfs, p));
        }
        ok := reply.Success?;
      }
      st := Tick(st);
      assert Outside(st.mfs, p) == Outside(old(st).mfs, p);
    }

    /** The CID, if one is found, stands for exactly the tree at the path, and the daemon can serve it. */
    method ResolveMFSCID(path: string) returns (cid: Option<string>)
      modifies this
      ensures (st, cid) == ResolveMFS(env, old(st), path)
      ensures st == Tick(old(st))
      ensures cid.Some? ==> IsAbs(path) && Location(path) in st.mfs && Held(env, st, cid.value)
      ensures cid.Some? && Lawful(env) && ValidTree(Subtree(st.mfs, Location(path))) ==>
                env.content(cid.value) == Subtree(st.mfs, Location(path))
    {
      var answered := env.reply(MfsStatCall, st.clock).Success?;
      cid := None;
      if answered && IsAbs(path) && Location(path) in st.mfs {
        cid := Some(env.cidOf(Subtree(st.mfs, Location(path))));
      }
      st := Tick(st);
    }

    method ExportMFS(path: string, dest: Tree) returns (out: Tree, ok: bool)
      modifies this
      ensures (st, out, ok) == Export(env, old(st), path, dest)
    {
      var cid := ResolveMFSCID(path);
      if cid.None? {
        return dest, false;
      }
      out, ok := GetCIDContent(cid.value, dest);
    }

    /** Clears the target, makes it again, and copies the local tree node by node in walk order. */
    method ImportToMFS(local: Option<Tree>, path: string) returns (ok: bool)
      modifies this
      ensures (st, ok) == Import(env, old(st), local, path)
    {
      var removed := RmMFS(path);
      var made := MkdirMFS(path);
      if !made {
        return false;
      }
      var canRead := Ask(LocalCall);
      if !canRead || local.None? {
        return false;
      }
      ok := CopyTree(local.value, Location(path));
    }

    method CopyTree(t: Tree, p: Path) returns (ok: bool)
      modifies this
      ensures (st, ok) == CopyWalk(env, old(st), t, Walk(t), p)
    {
      var todo := t.Keys;
      while todo != {}
        invariant todo <= t.Keys
        invariant CopyWalk(env, old(st), t, Walk(t), p) == CopyWalk(env, st, t, SortedPaths(todo), p)
        decreases todo
      {
        var q := FirstPath(todo);
        var r := CopyNode(env, st, t, q, p);
        st := r.0;
        if !r.1 {
          return false;
        }
        todo := todo - {q};
      }
      return true;
    }
  }
}
