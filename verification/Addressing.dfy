/** Content addressing exists: trees can be spelled so that each spelling is read back as its tree. */
module Addressing {
  import opened Trees
  import opened Paths
  import opened Ipfs

  // Each spelling below can be read off the front of a longer text: a mark announces a
  // further element or the end.

  lemma {:induction false} Unmark(m: char, n: char, a: string, b: string, x: string, y: string)
    requires [m] + a + x == [n] + b + y
    ensures m == n && a + x == b + y
  {
    assert m == ([m] + a + x)[0] == ([n] + b + y)[0] == n;
    assert a + x == ([m] + a + x)[1..] == ([n] + b + y)[1..] == b + y;
  }

  lemma {:induction false} Regroup(a: string, b: string, x: string)
    ensures (a + b) + x == a + (b + x)
  {
  }

  function Mark(more: bool): char { if more then '1' else '0' }

  function Text(s: string): string
    decreases |s|, 1
  {
    [Mark(s != "")] + TextRest(s)
  }

  function TextRest(s: string): string
    decreases |s|, 0
  {
    if s == "" then "" else [s[0]] + Text(s[1..])
  }

  lemma {:induction false} TextReads(a: string, b: string, x: string, y: string)
    requires Text(a) + x == Text(b) + y
    ensures a == b && x == y
  {
    Unmark(Mark(a != ""), Mark(b != ""), TextRest(a), TextRest(b), x, y);
    if a != "" {
      Unmark(a[0], b[0], Text(a[1..]), Text(b[1..]), x, y);
      TextReads(a[1..], b[1..], x, y);
      assert a == [a[0]] + a[1..] && b == [b[0]] + b[1..];
    } else {
      assert "" + x == x && "" + y == y;
    }
  }

  function PathText(p: Path): string
    decreases |p|, 1
  {
    [Mark(p != [])] + PathRest(p)
  }

  function PathRest(p: Path): string
    decreases |p|, 0
  {
    if p == [] then "" else Text(p[0]) + PathText(p[1..])
  }

  lemma {:induction false} PathReads(a: Path, b: Path, x: string, y: string)
    requires PathText(a) + x == PathText(b) + y
    ensures a == b && x == y
  {
    hide Text;
    Unmark(Mark(a != []), Mark(b != []), PathRest(a), PathRest(b), x, y);
    if a != [] {
      Regroup(Text(a[0]), PathText(a[1..]), x);
      Regroup(Text(b[0]), PathText(b[1..]), y);
      TextReads(a[0], b[0], PathText(a[1..]) + x, PathText(b[1..]) + y);
      PathReads(a[1..], b[1..], x, y);
      assert a == [a[0]] + a[1..] && b == [b[0]] + b[1..];
    } else {
      assert "" + x == x && "" + y == y;
    }
  }

  function Chars(data: seq<Byte>): string { seq(|data|, i requires 0 <= i < |data| => data[i] as char) }

  lemma {:induction false} CharsRead(a: seq<Byte>, b: seq<Byte>)
    requires Chars(a) == Chars(b)
    ensures a == b
  {
    assert |a| == |Chars(a)| == |Chars(b)| == |b|;
    assert forall i :: 0 <= i < |a| ==> Chars(a)[i] == a[i] as char && Chars(b)[i] == b[i] as char;
  }

  function NodeText(n: Node): string { [Mark(n.FileNode?)] + NodeRest(n) }

  function NodeRest(n: Node): string { if n.DirNode? then "" else Text(Chars(n.data)) }

  lemma {:induction false} NodeReads(a: Node, b: Node, x: string, y: string)
    requires NodeText(a) + x == NodeText(b) + y
    ensures a == b && x == y
  {
    hide Text, Chars;
    Unmark(Mark(a.FileNode?), Mark(b.FileNode?), NodeRest(a), NodeRest(b), x, y);
    if a.FileNode? {
      TextReads(Chars(a.data), Chars(b.data), x, y);
      CharsRead(a.data, b.data);
    } else {
      assert "" + x == x && "" + y == y;
    }
  }

  datatype Entry = Entry(path: Path, node: Node)

  function EntriesText(es: seq<Entry>): (text: string)
    ensures text != ""
    decreases |es|, 1
  {
    [Mark(es != [])] + EntriesRest(es)
  }

  function EntriesRest(es: seq<Entry>): string
    decreases |es|, 0
  {
    if es == [] then "" else PathText(es[0].path) + (NodeText(es[0].node) + EntriesText(es[1..]))
  }

  lemma {:induction false} EntriesRead(a: seq<Entry>, b: seq<Entry>)
    requires EntriesText(a) == EntriesText(b)
    ensures a == b
  {
    hide PathText, NodeText;
    assert EntriesText(a) + "" == EntriesText(b) + "";
    Unmark(Mark(a != []), Mark(b != []), EntriesRest(a), EntriesRest(b), "", "");
    if a != [] {
      assert EntriesRest(a) + "" == EntriesRest(a) && EntriesRest(b) + "" == EntriesRest(b);
      var x, y := NodeText(a[0].node) + EntriesText(a[1..]), NodeText(b[0].node) + EntriesText(b[1..]);
      PathReads(a[0].path, b[0].path, x, y);
      NodeReads(a[0].node, b[0].node, EntriesText(a[1..]), EntriesText(b[1..]));
      EntriesRead(a[1..], b[1..]);
      assert a == [a[0]] + a[1..] && b == [b[0]] + b[1..];
    }
  }

  /** The entries of a tree in walk order. */
  ghost function Entries(t: Tree): seq<Entry> {
    seq(|Walk(t)|, i requires 0 <= i < |Walk(t)| => assert Walk(t)[i] in t; Entry(Walk(t)[i], t[Walk(t)[i]]))
  }

  ghost function Spelling(t: Tree): string { EntriesText(Entries(t)) }

  lemma {:induction false} SpellingIsInjective(a: Tree, b: Tree)
    requires Spelling(a) == Spelling(b)
    ensures a == b
  {
    EntriesRead(Entries(a), Entries(b));
    EntriesLieIn(a, b);
    EntriesLieIn(b, a);
    assert a.Keys == b.Keys;
  }

  lemma {:induction false} EntriesLieIn(a: Tree, b: Tree)
    requires Entries(a) == Entries(b)
    ensures LiesIn(a, b)
  {
    forall k | k in a ensures k in b && a[k] == b[k] {
      assert k in Walk(a);
      var i :| 0 <= i < |Walk(a)| && Walk(a)[i] == k;
      assert Entries(a)[i] == Entries(b)[i] && Walk(b)[i] in b;
    }
  }

  ghost function Meaning(c: string): (t: Tree)
    ensures ValidTree(t)
  {
    if u :| ValidTree(u) && Spelling(u) == c then u else EMPTY_DIR
  }

  /** Whatever the schedule of failures, there is lawful content addressing to go with it. */
  lemma {:induction false} LawfulExists(reply: (Call, nat) -> Reply, remote: (string, nat) -> bool, debris: nat -> Tree)
    returns (env: Env)
    ensures Lawful(env) && env.reply == reply && env.remote == remote && env.debris == debris
  {
    env := Env(reply, remote, debris, t => Spelling(t), c => Meaning(c));
    forall t | ValidTree(t) ensures env.content(env.cidOf(t)) == t && env.cidOf(t) != "" {
      SpellingIsInjective(t, Meaning(Spelling(t)));
    }
  }
}
