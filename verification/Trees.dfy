/**
 Directory trees. A tree is the map from every path below its root (the root itself
 is the empty path) to what stands there. MFS, a staging directory and the content
 a CID stands for are all trees.
 */
module Trees {
  import opened Results
  import opened Orders
  import opened Paths

  newtype Byte = x: int | 0 <= x < 256

  datatype Node = DirNode | FileNode(data: seq<Byte>)

  type Tree = map<Path, Node>

  predicate IsDir(t: Tree, p: Path) { p in t && t[p].DirNode? }

  function Parent(p: Path): Path
    requires p != []
  {
    p[..|p| - 1]
  }

  /** Everything but the root hangs in a directory of the tree. */
  predicate ValidTree(t: Tree) {
    [] in t && forall p {:trigger Parent(p)} :: p in t && p != [] ==> IsDir(t, Parent(p))
  }

  /** A valid tree whose root is a directory: MFS, or a local directory. */
  predicate ValidDir(t: Tree) { ValidTree(t) && IsDir(t, []) }

  const EMPTY_DIR: Tree := map[[] := DirNode]

  function FileTree(data: seq<Byte>): Tree { map[[] := FileNode(data)] }

  // ------------------------------------------------------------ parts of a tree

  /** The tree found at `p`. */
  function Subtree(fs: Tree, p: Path): (t: Tree)
    ensures forall q {:trigger q in t} :: q in t <==> p + q in fs
    ensures forall q {:trigger t[q]} :: q in t ==> t[q] == fs[p + q]
  {
    assert forall k :: p <= k ==> p + k[|p|..] == k;
    var t := map q | q in (set k | k in fs && p <= k :: k[|p|..]) :: fs[p + q];
    assert forall q :: p + q in fs ==> (p + q)[|p|..] == q;
    t
  }

  /** What is left of the tree when everything at and below `p` is taken away. */
  function Outside(fs: Tree, p: Path): (t: Tree)
    ensures forall k {:trigger k in t} :: k in t <==> k in fs && !(p <= k)
    ensures forall k {:trigger t[k]} :: k in t ==> t[k] == fs[k]
  {
    map k | k in fs && !(p <= k) :: fs[k]
  }

  /** The entries of `t` moved below `p`. */
  function Planted(p: Path, t: Tree): (r: Tree)
    ensures forall k {:trigger k in r} :: k in r <==> p <= k && k[|p|..] in t
    ensures forall k {:trigger r[k]} :: k in r ==> r[k] == t[k[|p|..]]
  {
    var r := map k | k in (set q | q in t :: p + q) :: t[k[|p|..]];
    assert forall q :: (p + q)[|p|..] == q;
    assert forall k :: p <= k ==> k == p + k[|p|..];
    r
  }

  function Ancestors(p: Path): (ks: set<Path>)
    ensures forall k {:trigger k in ks} :: k in ks <==> k <= p
  {
    if p == [] then {[]}
    else
      var rest := Ancestors(Parent(p));
      assert forall k {:trigger k in rest} :: k <= p && k != p ==> k <= Parent(p) && k in rest;
      {p} + rest
  }

  /** The directories `files/mkdir --parents p` makes sure of: `p` and all its ancestors. */
  function Chain(p: Path): (t: Tree)
    ensures forall k {:trigger k in t} :: k in t <==> k <= p
    ensures forall k {:trigger t[k]} :: k in t ==> t[k] == DirNode
  {
    map k | k in Ancestors(p) :: DirNode
  }

  predicate CanMkdir(fs: Tree, p: Path) {
    forall k :: k in fs && k <= p ==> fs[k].DirNode?
  }

  /** `files/cp` wants an existing parent directory and a free destination. */
  predicate CanCopyTo(fs: Tree, p: Path) {
    p != [] && p !in fs && IsDir(fs, Parent(p))
  }

  /** `t` laid over what is already at and above `p`. */
  function Overlay(fs: Tree, p: Path, t: Tree): Tree {
    fs + Chain(p) + Planted(p, t)
  }

  /** What stands at a path, if anything. */
  ghost function At(t: Tree, k: Path): Option<Node> { if k in t then Some(t[k]) else None }

  lemma {:induction false} SameTree(a: Tree, b: Tree)
    requires forall k :: At(a, k) == At(b, k)
    ensures a == b
  {
    forall k ensures (k in a <==> k in b) && (k in a ==> a[k] == b[k]) {
      assert At(a, k) == At(b, k);
    }
  }

  lemma {:induction false} UnionAt(a: Tree, b: Tree, k: Path)
    ensures At(a + b, k) == if k in b then At(b, k) else At(a, k)
  {
  }

  predicate Comparable(p: Path, q: Path) { p <= q || q <= p }

  // ------------------------------------------------------------ validity

  lemma {:induction false} SubtreeValid(fs: Tree, p: Path)
    requires ValidTree(fs) && p in fs
    ensures ValidTree(Subtree(fs, p))
    ensures IsDir(fs, p) ==> ValidDir(Subtree(fs, p))
  {
    var t := Subtree(fs, p);
    assert p + [] == p;
    forall q | q in t && q != [] ensures IsDir(t, Parent(q)) {
      assert Parent(p + q) == p + Parent(q);
      assert p + q in fs;
    }
  }

  lemma {:induction false} AncestorsAreDirs(fs: Tree, p: Path, k: Path)
    requires ValidTree(fs) && p in fs && k <= p && k != p
    ensures IsDir(fs, k)
    decreases |p| - |k|
  {
    if |k| + 1 == |p| {
      assert k == Parent(p);
    } else {
      AncestorsAreDirs(fs, Parent(p), k);
    }
  }

  lemma {:induction false} OutsideValid(fs: Tree, p: Path)
    requires ValidDir(fs) && p != []
    ensures ValidDir(Outside(fs, p))
  {
    var t := Outside(fs, p);
    forall k | k in t && k != [] ensures IsDir(t, Parent(k)) {
      assert p <= Parent(k) ==> p <= k;
    }
  }

  lemma {:induction false} ChainValid(fs: Tree, p: Path)
    requires ValidDir(fs) && CanMkdir(fs, p)
    ensures ValidDir(fs + Chain(p)) && IsDir(fs + Chain(p), p)
  {
    var t := fs + Chain(p);
    forall k | k in t && k != [] ensures IsDir(t, Parent(k)) {
      if k <= p {
        assert Parent(k) <= p;
      } else if Parent(k) <= p {
        assert Parent(k) in Chain(p);
      }
    }
  }

  /** Removing what stands at a path of a sound tree leaves nothing in the way of making it again. */
  lemma {:induction false} MakeableAgain(fs: Tree, p: Path)
    requires ValidDir(fs) && p in fs
    ensures CanMkdir(Outside(fs, p), p)
  {
    forall k | k in Outside(fs, p) && k <= p ensures Outside(fs, p)[k].DirNode? {
      AncestorsAreDirs(fs, p, k);
    }
  }

  /** Removing something that is not there changes nothing. */
  lemma {:induction false} OutsideAbsent(fs: Tree, p: Path)
    requires ValidTree(fs) && p !in fs
    ensures Outside(fs, p) == fs
  {
    forall k | k in fs ensures !(p <= k) {
      if p <= k {
        AncestorsAreDirs(fs, k, p);
      }
    }
  }

  // ------------------------------------------------------------ laws

  /** Taking the tree at `p` out and laying it back in the same place changes nothing. */
  lemma {:induction false} OverlaySame(fs: Tree, p: Path)
    requires ValidDir(fs) && IsDir(fs, p)
    ensures Overlay(Outside(fs, p), p, Subtree(fs, p)) == fs
  {
    forall k ensures At(Overlay(Outside(fs, p), p, Subtree(fs, p)), k) == At(fs, k) {
      OverlaySameAt(fs, p, k);
    }
    SameTree(Overlay(Outside(fs, p), p, Subtree(fs, p)), fs);
  }

  lemma {:induction false} OverlaySameAt(fs: Tree, p: Path, k: Path)
    requires ValidDir(fs) && IsDir(fs, p)
    ensures At(Overlay(Outside(fs, p), p, Subtree(fs, p)), k) == At(fs, k)
  {
    assert p + [] == p;
    if p <= k {
      assert p + k[|p|..] == k;
    } else if k <= p {
      AncestorsAreDirs(fs, p, k);
    }
  }

  /** An overlay shows the new tree over whatever was left at the place. */
  lemma {:induction false} SubtreeOfOverlay(fs: Tree, p: Path, t: Tree)
    requires IsDir(t, [])
    ensures Subtree(Overlay(fs, p, t), p) == Subtree(fs, p) + t
  {
    forall q ensures At(Subtree(Overlay(fs, p, t), p), q) == At(Subtree(fs, p) + t, q) {
      SubtreeOfOverlayAt(fs, p, t, q);
    }
    SameTree(Subtree(Overlay(fs, p, t), p), Subtree(fs, p) + t);
  }

  lemma {:induction false} SubtreeOfOverlayAt(fs: Tree, p: Path, t: Tree, q: Path)
    requires IsDir(t, [])
    ensures At(Subtree(Overlay(fs, p, t), p), q) == At(Subtree(fs, p) + t, q)
  {
    OverlayAt(fs, p, t, q);
    SubtreeAt(Overlay(fs, p, t), p, q);
    SubtreeAt(fs, p, q);
  }

  lemma {:induction false} SubtreeAt(fs: Tree, p: Path, q: Path)
    ensures At(Subtree(fs, p), q) == At(fs, p + q)
  {
  }

  lemma {:induction false} PlantedAt(p: Path, t: Tree, k: Path)
    ensures At(Planted(p, t), k) == if p <= k then At(t, k[|p|..]) else None
  {
  }

  lemma {:induction false} OverlayAt(fs: Tree, p: Path, t: Tree, q: Path)
    requires IsDir(t, [])
    ensures At(Overlay(fs, p, t), p + q) == if q in t then Some(t[q]) else At(fs, p + q)
  {
    assert (p + q)[|p|..] == q;
  }

  lemma {:induction false} SubtreeNested(fs: Tree, p: Path, r: Path)
    ensures Subtree(Subtree(fs, p), r) == Subtree(fs, p + r)
  {
    forall k ensures At(Subtree(Subtree(fs, p), r), k) == At(Subtree(fs, p + r), k) {
      assert p + (r + k) == (p + r) + k;
    }
    SameTree(Subtree(Subtree(fs, p), r), Subtree(fs, p + r));
  }

  /** A made directory need not be among the entries laid into it. */
  lemma {:induction false} RootedOverlay(fs: Tree, p: Path, part: Tree)
    requires [] in part ==> IsDir(part, [])
    ensures fs + Chain(p) + Planted(p, part) == Overlay(fs, p, EMPTY_DIR + part)
  {
    hide Planted, Chain, Overlay;
    forall k ensures At(fs + Chain(p) + Planted(p, part), k) == At(Overlay(fs, p, EMPTY_DIR + part), k) {
      RootedOverlayAt(fs, p, part, k);
    }
    SameTree(fs + Chain(p) + Planted(p, part), Overlay(fs, p, EMPTY_DIR + part));
  }

  lemma {:induction false} RootedOverlayAt(fs: Tree, p: Path, part: Tree, k: Path)
    requires [] in part ==> IsDir(part, [])
    ensures At(fs + Chain(p) + Planted(p, part), k) == At(Overlay(fs, p, EMPTY_DIR + part), k)
  {
    hide Planted;
    var all := EMPTY_DIR + part;
    UnionAt(fs + Chain(p), Planted(p, part), k);
    UnionAt(fs + Chain(p), Planted(p, all), k);
    if p <= k {
      var q := k[|p|..];
      UnionAt(EMPTY_DIR, part, q);
      assert q == [] ==> k == p;
    }
  }

  /** All entries of one tree, unchanged, in another. */
  ghost predicate LiesIn(t: Tree, u: Tree) { forall k :: k in t ==> k in u && t[k] == u[k] }

  lemma {:induction false} MkdirAgain(fs: Tree, p: Path)
    requires ValidDir(fs) && IsDir(fs, p)
    ensures CanMkdir(fs, p) && fs + Chain(p) == fs
  {
    forall k | k in Chain(p) ensures IsDir(fs, k) {
      if k != p {
        AncestorsAreDirs(fs, p, k);
      }
    }
    assert forall k :: k in fs && k <= p ==> k in Chain(p);
    assert fs + Chain(p) == fs;
  }

  /** Laying a tree where the old one was removed changes nothing exactly if it is the old one. */
  lemma {:induction false} OverlayKeeps(fs: Tree, p: Path, t: Tree)
    requires ValidDir(fs) && IsDir(fs, p) && IsDir(t, [])
    ensures Overlay(Outside(fs, p), p, t) == fs <==> t == Subtree(fs, p)
  {
    hide Overlay, Subtree, Outside, ValidTree;
    OverlaySame(fs, p);
    SubtreeOfOverlay(Outside(fs, p), p, t);
    NothingAt(fs, p);
    UnionIsRight(map[], t);
  }

  /** Laying a tree over the old one changes nothing exactly if all of it stood there already. */
  lemma {:induction false} OverlayOverKeeps(fs: Tree, p: Path, t: Tree)
    requires ValidDir(fs) && IsDir(fs, p) && IsDir(t, [])
    ensures Overlay(fs, p, t) == fs <==> LiesIn(t, Subtree(fs, p))
  {
    hide Subtree, ValidTree, Planted, Chain;
    MkdirAgain(fs, p);
    SubtreeOfOverlay(fs, p, t);
    LiesInUnion(t, Subtree(fs, p));
    if LiesIn(t, Subtree(fs, p)) {
      forall k ensures At(fs + Planted(p, t), k) == At(fs, k) {
        PlantAgainAt(fs, p, t, k);
      }
      SameTree(fs + Planted(p, t), fs);
    }
  }

  lemma {:induction false} LiesInUnion(t: Tree, u: Tree)
    ensures u + t == u <==> LiesIn(t, u)
  {
    if k :| k in t && !(k in u && t[k] == u[k]) {
      assert (u + t)[k] == t[k];
    } else {
      assert u + t == u;
    }
  }

  /** An empty directory laid at `p` is the making of `p`. */
  lemma {:induction false} BareOverlay(fs: Tree, p: Path)
    ensures Overlay(fs, p, EMPTY_DIR) == fs + Chain(p)
  {
    hide Planted;
    forall k ensures At(Overlay(fs, p, EMPTY_DIR), k) == At(fs + Chain(p), k) {
      PlantedAt(p, EMPTY_DIR, k);
      assert p <= k && k[|p|..] == [] ==> k == p;
    }
    SameTree(Overlay(fs, p, EMPTY_DIR), fs + Chain(p));
  }

  lemma {:induction false} PlantAgainAt(fs: Tree, p: Path, t: Tree, k: Path)
    requires LiesIn(t, Subtree(fs, p))
    ensures At(fs + Planted(p, t), k) == At(fs, k)
  {
    if p <= k {
      assert p + k[|p|..] == k;
    }
  }

  lemma {:induction false} NothingAt(fs: Tree, p: Path)
    ensures Subtree(Outside(fs, p), p) == map[]
  {
    forall q ensures q !in Subtree(Outside(fs, p), p) {
      assert p <= p + q;
    }
  }

  lemma {:induction false} UnionIsRight(a: Tree, b: Tree)
    ensures a + b == b <==> a.Keys <= b.Keys
    ensures map[] + b == b
  {
    if a.Keys <= b.Keys {
      assert a + b == b;
    } else {
      var k :| k in a && k !in b;
      assert k in a + b;
    }
  }

  // ------------------------------------------------------------ replacing a tree, or half doing it

  /** What is left when the tree at `p` is removed or not, and `done` then laid there or nothing. */
  function Landed(fs: Tree, p: Path, cleared: bool, remade: bool, done: Tree): Tree {
    var base := if cleared then Outside(fs, p) else fs;
    if remade then Overlay(base, p, done) else base
  }

  /** What is then seen at `p`. */
  function LandedShows(fs: Tree, p: Path, cleared: bool, remade: bool, done: Tree): Tree {
    (if cleared then map[] else Subtree(fs, p)) + (if remade then done else map[])
  }

  lemma {:induction false} LandedShown(fs: Tree, p: Path, cleared: bool, remade: bool, done: Tree)
    requires IsDir(done, [])
    ensures Subtree(Landed(fs, p, cleared, remade, done), p) == LandedShows(fs, p, cleared, remade, done)
  {
    hide Overlay, Subtree, Outside;
    var base := if cleared then Outside(fs, p) else fs;
    NothingAt(fs, p);
    SubtreeOfOverlay(base, p, done);
    assert Subtree(base, p) + map[] == Subtree(base, p);
  }

  lemma {:induction false} Missing(fs: Tree, p: Path)
    requires p in fs
    ensures Outside(fs, p) != fs
  {
  }

  /** When nothing has changed after all. */
  lemma {:induction false} LandedKeeps(fs: Tree, p: Path, cleared: bool, remade: bool, done: Tree)
    requires ValidDir(fs) && IsDir(fs, p) && IsDir(done, [])
    ensures
      Landed(fs, p, cleared, remade, done) == fs <==>
        if !remade then !cleared
        else if cleared then done == Subtree(fs, p)
        else LiesIn(done, Subtree(fs, p))
  {
    hide Overlay, Subtree, Outside, ValidTree, LiesIn;
    OverlayKeeps(fs, p, done);
    OverlayOverKeeps(fs, p, done);
    Missing(fs, p);
  }

  /** A tree seen at `p` shows at `q`, as far as the two places overlap, what the old tree shows there. */
  ghost predicate Agrees(fs: Tree, p: Path, t: Tree, q: Path) {
    if p <= q then Subtree(t, q[|p|..]) == Subtree(fs, q)
    else if q <= p then t == Subtree(fs, p)
    else true
  }

  /** When another place shows what it did: exactly if the two trees agree where the places overlap. */
  lemma {:induction false} LandedSpares(fs: Tree, p: Path, cleared: bool, remade: bool, done: Tree, q: Path)
    requires ValidDir(fs) && IsDir(done, [])
    ensures
      Subtree(Landed(fs, p, cleared, remade, done), q) == Subtree(fs, q) <==>
        Agrees(fs, p, LandedShows(fs, p, cleared, remade, done), q)
  {
    hide Subtree, ValidTree, Landed, LandedShows;
    var fs' := Landed(fs, p, cleared, remade, done);
    LandedShown(fs, p, cleared, remade, done);
    if p <= q {
      assert p + q[|p|..] == q;
      SubtreeNested(fs', p, q[|p|..]);
    } else if q <= p {
      assert q + p[|q|..] == p;
      SubtreeNested(fs, q, p[|q|..]);
      SubtreeNested(fs', q, p[|q|..]);
      if LandedShows(fs, p, cleared, remade, done) == Subtree(fs, p) {
        LandedSame(fs, p, cleared, remade, done);
      }
    } else {
      LandedFrame(fs, p, cleared, remade, done, q);
    }
  }

  lemma {:induction false} LandedSame(fs: Tree, p: Path, cleared: bool, remade: bool, done: Tree)
    requires ValidDir(fs) && IsDir(done, []) && LandedShows(fs, p, cleared, remade, done) == Subtree(fs, p)
    ensures Landed(fs, p, cleared, remade, done) == fs
  {
    hide Overlay, Subtree, Outside, ValidTree;
    SubtreeAt(fs, p, []);
    assert p + [] == p;
    if remade {
      assert LandedShows(fs, p, cleared, remade, done)[[]] == DirNode;
      LandedKeeps(fs, p, cleared, remade, done);
      UnionIsRight(map[], done);
      LiesInUnion(done, Subtree(fs, p));
    } else if cleared {
      OutsideAbsent(fs, p);
    }
  }

  lemma {:induction false} LandedFrame(fs: Tree, p: Path, cleared: bool, remade: bool, done: Tree, q: Path)
    requires !Comparable(p, q)
    ensures Subtree(Landed(fs, p, cleared, remade, done), q) == Subtree(fs, q)
  {
    hide Subtree;
    var base := if cleared then Outside(fs, p) else fs;
    assert Outside(Outside(fs, p), p) == Outside(fs, p);
    OutsideFrame(fs, base, p, q);
    ChainFrame(base, p, q);
    PlantedOutside(base + Chain(p), p, done);
    OutsideFrame(base + Chain(p), base + Chain(p) + Planted(p, done), p, q);
  }

  lemma {:induction false} PlantedOutside(fs: Tree, p: Path, t: Tree)
    ensures Outside(fs + Planted(p, t), p) == Outside(fs, p)
  {
    forall k ensures At(Outside(fs + Planted(p, t), p), k) == At(Outside(fs, p), k) {
    }
    SameTree(Outside(fs + Planted(p, t), p), Outside(fs, p));
  }

  /** A part of a part is the whole exactly if both are. */
  lemma {:induction false} PartIsWhole(a: Tree, b: Tree, c: Tree)
    requires LiesIn(a, b) && LiesIn(b, c)
    ensures a == c <==> a == b && b == c
  {
    if a == c {
      assert forall k :: k in b <==> k in a;
    }
  }

  /** Making directories up to `p` does not reach into a tree that `p` is not inside. */
  lemma {:induction false} ChainFrame(fs: Tree, p: Path, q: Path)
    requires !(q <= p)
    ensures Subtree(fs + Chain(p), q) == Subtree(fs, q)
  {
    forall k ensures At(Subtree(fs + Chain(p), q), k) == At(Subtree(fs, q), k) {
      assert q + k <= p ==> q <= p;
    }
    SameTree(Subtree(fs + Chain(p), q), Subtree(fs, q));
  }

  /** Trees that agree away from `p` agree at every place not comparable with `p`. */
  lemma {:induction false} OutsideFrame(fs: Tree, fs': Tree, p: Path, q: Path)
    requires Outside(fs, p) == Outside(fs', p) && !Comparable(p, q)
    ensures Subtree(fs', q) == Subtree(fs, q)
  {
    forall k ensures At(Subtree(fs', q), k) == At(Subtree(fs, q), k) {
      NotBelow(p, q, k);
      assert At(Outside(fs, p), q + k) == At(Outside(fs', p), q + k);
    }
    SameTree(Subtree(fs', q), Subtree(fs, q));
  }

  lemma {:induction false} NotBelow(p: Path, q: Path, k: Path)
    ensures p <= q + k ==> Comparable(p, q)
  {
    if p <= q + k {
      if |p| <= |q| {
        assert p == (q + k)[..|p|] == q[..|p|];
      } else {
        assert q == (q + k)[..|q|] == p[..|q|];
      }
    }
  }

  // ------------------------------------------------------------ the local walk

  /** `filepath.Walk`: all paths of a local tree in lexical order. */
  ghost function Walk(t: Tree): seq<Path> { SortedPaths(t.Keys) }

  /** The lexical walk reaches every directory before anything inside it. */
  lemma {:induction false} WalkIsParentFirst(t: Tree, i: nat)
    requires ValidTree(t) && i < |Walk(t)| && Walk(t)[i] != []
    ensures Parent(Walk(t)[i]) in Walk(t)[..i]
  {
    var p := Walk(t)[i];
    PathOrder();
    assert p in t;
    LexPrefix(StringLE, Parent(p), p);
    SmallerComesFirst(PathLE, t.Keys, Parent(p), i);
  }

  /** The entries of `t` at the paths of `w`. */
  ghost function Part(t: Tree, w: seq<Path>): (r: Tree)
    ensures forall k :: k in r <==> k in t && k in w
    ensures forall k :: k in r ==> r[k] == t[k]
  {
    map k | k in t && k in w :: t[k]
  }

  // ------------------------------------------------------------ local directories

  /** The names directly inside the root. */
  function ChildNames(t: Tree): (names: set<string>)
    ensures forall n :: n in names <==> [n] in t
  {
    assert forall p: Path :: |p| == 1 ==> p == [p[0]];
    var names := set p | p in t && |p| == 1 :: p[0];
    assert forall n :: [n] in t ==> [n][0] == n;
    names
  }

  /**
   What a downloaded node looks like inside a directory: a directory is spread out,
   a single file becomes an entry called `data`.
   */
  function Materialized(t: Tree): Tree {
    if IsDir(t, []) then t else EMPTY_DIR + Planted(["data"], t)
  }

  predicate PartOf(a: Node, b: Node) { a == b || (a.FileNode? && b.FileNode? && a.data <= b.data) }

  /**
   What breaking off halfway between two directories may leave: all of `lo` and some of
   `hi`, files perhaps cut short. Clearing goes down from `hi`, a download up from `lo`.
   */
  predicate Between(lo: Tree, x: Tree, hi: Tree) {
    && ValidDir(x)
    && (forall k :: k in lo ==> k in x && x[k] == lo[k])
    && (forall k :: k in x && k !in lo ==> k in hi && PartOf(x[k], hi[k]))
  }

  lemma {:induction false} FirstNameInTree(t: Tree, p: Path)
    requires ValidTree(t) && p in t && p != []
    ensures [p[0]] in t
  {
    if |p| == 1 {
      assert p == [p[0]];
    } else {
      FirstNameInTree(t, Parent(p));
    }
  }

  /** Go's `ensureEmptyDirectory`: every entry of the directory is removed with all it holds. */
  method EnsureEmptyDirectory(dir: Tree) returns (out: Tree)
    requires ValidDir(dir)
    ensures out == EMPTY_DIR
  {
    out := dir;
    var todo := ChildNames(dir);
    forall k | k in dir && k != [] ensures k[0] in todo { FirstNameInTree(dir, k); }
    while todo != {}
      invariant forall k :: k in out <==> k in dir && (k == [] || k[0] in todo)
      invariant forall k :: k in out ==> out[k] == dir[k]
      decreases todo
    {
      var name :| name in todo;
      out := Outside(out, [name]);
      todo := todo - {name};
    }
    assert out.Keys == {[]};
  }

  /** Children of a downloaded directory written one by one; an existing entry stops the write. */
  ghost function WriteChildren(node: Tree, names: seq<string>, dest: Tree): (r: (Tree, bool))
  {
    if names == [] then (dest, true)
    else
      var name := names[0];
      if [name] in dest then (dest, false)
      else WriteChildren(node, names[1..], dest + Planted([name], Subtree(node, [name])))
  }

  /** Go's `writeNodeToDir`. */
  ghost function WriteNode(node: Tree, dest: Tree): (r: (Tree, bool)) {
    if IsDir(node, []) then
      WriteChildren(node, SortedStrings(ChildNames(node)), dest)
    else if ["data"] in dest then (dest, false)
    else (dest + Planted(["data"], node), true)
  }

  method WriteNodeToDir(node: Tree, dest: Tree) returns (out: Tree, ok: bool)
    ensures (out, ok) == WriteNode(node, dest)
  {
    out, ok := dest, true;
    if !IsDir(node, []) {
      if ["data"] in dest {
        return dest, false;
      }
      return dest + Planted(["data"], node), true;
    }
    var todo := ChildNames(node);
    while todo != {}
      invariant WriteNode(node, dest) == WriteChildren(node, SortedStrings(todo), out)
      decreases todo
    {
      var name := FirstString(todo);
      if [name] in out {
        return out, false;
      }
      out := out + Planted([name], Subtree(node, [name]));
      todo := todo - {name};
    }
  }

  lemma {:induction false} WriteChildrenAll(node: Tree, names: seq<string>, dest: Tree)
    requires ValidDir(node)
    requires forall i, j :: 0 <= i < j < |names| ==> names[i] != names[j]
    requires dest == Except(node, names)
    ensures WriteChildren(node, names, dest) == (node, true)
  {
    if names == [] {
      assert dest == node;
    } else {
      var next := dest + Planted([names[0]], Subtree(node, [names[0]]));
      forall k ensures At(next, k) == At(Except(node, names[1..]), k) {
        AddChild(node, names, k);
      }
      SameTree(next, Except(node, names[1..]));
      WriteChildrenAll(node, names[1..], next);
    }
  }

  /** The tree without the children of these names. */
  ghost function Except(node: Tree, names: seq<string>): (t: Tree)
    ensures forall k {:trigger k in t} :: k in t <==> k in node && (k == [] || k[0] !in names)
    ensures forall k {:trigger t[k]} :: k in t ==> t[k] == node[k]
  {
    map k | k in node && (k == [] || k[0] !in names) :: node[k]
  }

  lemma {:induction false} AddChild(node: Tree, names: seq<string>, k: Path)
    requires names != [] && forall i, j :: 0 <= i < j < |names| ==> names[i] != names[j]
    ensures
      At(Except(node, names) + Planted([names[0]], Subtree(node, [names[0]])), k) == At(Except(node, names[1..]), k)
  {
    hide Planted, Subtree;
    var name := names[0];
    var child := Planted([name], Subtree(node, [name]));
    PlantedAt([name], Subtree(node, [name]), k);
    UnionAt(Except(node, names), child, k);
    assert name !in names[1..];
    if k != [] {
      assert [name] <= k <==> k[0] == name;
      assert k[0] in names <==> k[0] == name || k[0] in names[1..];
      if k[0] == name {
        assert [name] + k[1..] == k;
        SubtreeAt(node, [name], k[1..]);
      }
    }
  }

  /** Children are added one by one to what is there, until one is there already. */
  lemma {:induction false} WriteChildrenMeans(node: Tree, names: seq<string>, dest: Tree)
    requires forall i, j :: 0 <= i < j < |names| ==> names[i] != names[j]
    ensures
      var (out, ok) := WriteChildren(node, names, dest);
      && (ok <==> forall name :: name in names ==> [name] !in dest)
      && (ok ==> forall k :: At(out, k) == if k != [] && k[0] in names && k in node then Some(node[k]) else At(dest, k))
  {
    if names != [] {
      var (name, rest) := (names[0], names[1..]);
      assert forall x :: x in names <==> x == name || x in rest;
      assert name !in rest;
      if [name] !in dest {
        var next := dest + Planted([name], Subtree(node, [name]));
        forall k ensures At(next, k) == if k != [] && k[0] == name && k in node then Some(node[k]) else At(dest, k) {
          ChildAt(node, dest, name, k);
        }
        forall x | x in rest ensures [x] in next <==> [x] in dest {
          assert At(next, [x]) == At(dest, [x]);
        }
        WriteChildrenMeans(node, rest, next);
      }
    }
  }

  lemma {:induction false} ChildAt(node: Tree, dest: Tree, name: string, k: Path)
    ensures
      At(dest + Planted([name], Subtree(node, [name])), k) ==
      if k != [] && k[0] == name && k in node then Some(node[k]) else At(dest, k)
  {
    hide Planted, Subtree;
    PlantedAt([name], Subtree(node, [name]), k);
    UnionAt(dest, Planted([name], Subtree(node, [name])), k);
    if k != [] {
      assert [name] <= k <==> k[0] == name;
      if k[0] == name {
        assert [name] + k[1..] == k;
        SubtreeAt(node, [name], k[1..]);
      }
    }
  }

  /**
   What writing a download into any directory does: it succeeds exactly if nothing of that
   name is there yet, and then adds the node's entries, or a file as `data`, to what is there.
   */
  lemma {:induction false} WriteNodeMeans(node: Tree, dest: Tree)
    requires ValidTree(node)
    ensures
      var (out, ok) := WriteNode(node, dest);
      if IsDir(node, []) then
        && (ok <==> forall k :: k in node && |k| == 1 ==> k !in dest)
        && (ok ==> forall k :: At(out, k) == if k != [] && k in node then Some(node[k]) else At(dest, k))
      else
        && (ok <==> ["data"] !in dest)
        && (ok ==> forall k :: At(out, k) == if k == ["data"] then Some(node[[]]) else At(dest, k))
  {
    if IsDir(node, []) {
      var names := SortedStrings(ChildNames(node));
      WriteChildrenMeans(node, names, dest);
      forall k | k in node && k != [] ensures k[0] in names {
        FirstNameInTree(node, k);
      }
      assert forall name :: name in names <==> [name] in node;
      assert forall k: Path :: |k| == 1 ==> k == [k[0]];
    } else {
      forall k | k in node ensures k == [] {
        if k != [] {
          AncestorsAreDirs(node, k, []);
        }
      }
      forall k ensures At(dest + Planted(["data"], node), k) == if k == ["data"] then Some(node[[]]) else At(dest, k) {
        PlantedAt(["data"], node, k);
        assert ["data"] <= k && k[1..] == [] <==> k == ["data"];
      }
    }
  }

  /** A file that is not in a directory has nothing below it. */
  lemma {:induction false} LoneFile(node: Tree)
    requires ValidTree(node) && !IsDir(node, [])
    ensures EMPTY_DIR + Planted(["data"], node) == map[[] := DirNode, ["data"] := node[[]]]
  {
    forall k | k in node ensures k == [] {
      if k != [] {
        AncestorsAreDirs(node, k, []);
      }
    }
    var (t, lone) := (EMPTY_DIR + Planted(["data"], node), map[[] := DirNode, ["data"] := node[[]]]);
    forall k ensures At(t, k) == At(lone, k) {
      PlantedAt(["data"], node, k);
      assert ["data"] <= k && k[1..] == [] <==> k == ["data"];
    }
    SameTree(t, lone);
  }

  /** Written into an empty directory, a downloaded node arrives complete. */
  lemma {:induction false} WriteIntoEmpty(node: Tree)
    requires ValidTree(node)
    ensures WriteNode(node, EMPTY_DIR) == (Materialized(node), true)
    ensures
      WriteNode(node, EMPTY_DIR).0 ==
      if IsDir(node, []) then node else map[[] := DirNode, ["data"] := node[[]]]
    ensures ValidDir(Materialized(node))
  {
    if IsDir(node, []) {
      var names := SortedStrings(ChildNames(node));
      forall k | k in node && k != [] ensures k[0] in names {
        FirstNameInTree(node, k);
      }
      assert EMPTY_DIR == Except(node, names);
      WriteChildrenAll(node, names, EMPTY_DIR);
    } else {
      var t := Materialized(node);
      forall p | p in t && p != [] ensures IsDir(t, Parent(p)) {
        assert p[1..] in node;
        if p[1..] != [] {
          assert IsDir(node, Parent(p[1..]));
          AncestorsAreDirs(node, p[1..], []);
        }
        assert p == ["data"];
      }
      LoneFile(node);
    }
  }
}
