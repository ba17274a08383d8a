/** Lexicographic orders, and the sorted enumeration of a finite set. */
module Orders {

  ghost predicate TotalOrder<T(!new)>(le: (T, T) -> bool) {
    && (forall x :: le(x, x))
    && (forall x, y :: le(x, y) && le(y, x) ==> x == y)
    && (forall x, y, z :: le(x, y) && le(y, z) ==> le(x, z))
    && (forall x, y :: le(x, y) || le(y, x))
  }

  predicate LexLE<T(==)>(le: (T, T) -> bool, a: seq<T>, b: seq<T>) {
    a == [] || (b != [] && if a[0] == b[0] then LexLE(le, a[1..], b[1..]) else le(a[0], b[0]))
  }

  lemma {:induction false} LexReflexive<T>(le: (T, T) -> bool, a: seq<T>)
    ensures LexLE(le, a, a)
  {
    if a != [] {
      LexReflexive(le, a[1..]);
    }
  }

  lemma {:induction false} LexAntisymmetric<T(!new)>(le: (T, T) -> bool, a: seq<T>, b: seq<T>)
    requires TotalOrder(le) && LexLE(le, a, b) && LexLE(le, b, a)
    ensures a == b
  {
    if a != [] && b != [] && a[0] == b[0] {
      LexAntisymmetric(le, a[1..], b[1..]);
      assert a == [a[0]] + a[1..] && b == [b[0]] + b[1..];
    }
  }

  lemma {:induction false} LexTransitive<T(!new)>(le: (T, T) -> bool, a: seq<T>, b: seq<T>, c: seq<T>)
    requires TotalOrder(le) && LexLE(le, a, b) && LexLE(le, b, c)
    ensures LexLE(le, a, c)
  {
    if a != [] && a[0] == b[0] && b[0] == c[0] {
      LexTransitive(le, a[1..], b[1..], c[1..]);
    }
  }

  lemma {:induction false} LexConnected<T(!new)>(le: (T, T) -> bool, a: seq<T>, b: seq<T>)
    requires TotalOrder(le)
    ensures LexLE(le, a, b) || LexLE(le, b, a)
  {
    if a != [] && b != [] && a[0] == b[0] {
      LexConnected(le, a[1..], b[1..]);
    }
  }

  /** A prefix never comes after its extensions. */
  lemma {:induction false} LexPrefix<T>(le: (T, T) -> bool, a: seq<T>, b: seq<T>)
    requires a <= b
    ensures LexLE(le, a, b)
  {
    if a != [] {
      LexPrefix(le, a[1..], b[1..]);
    }
  }

  /** What the order says: a prefix comes first; otherwise the first difference decides. */
  lemma {:induction false} LexMeans<T(!new)>(le: (T, T) -> bool, a: seq<T>, b: seq<T>)
    ensures
      LexLE(le, a, b) <==>
        a <= b || exists i :: 0 <= i < |a| && i < |b| && a[..i] == b[..i] && a[i] != b[i] && le(a[i], b[i])
  {
    if a != [] && b != [] {
      if a[0] == b[0] {
        LexMeans(le, a[1..], b[1..]);
        if i :| 0 <= i < |a| - 1 && i < |b| - 1 && a[1..][..i] == b[1..][..i] && a[1..][i] != b[1..][i]
                && le(a[1..][i], b[1..][i]) {
          assert a[..i + 1] == [a[0]] + a[1..][..i] && b[..i + 1] == [b[0]] + b[1..][..i];
          assert a[i + 1] != b[i + 1] && le(a[i + 1], b[i + 1]);
        }
        if i :| 0 <= i < |a| && i < |b| && a[..i] == b[..i] && a[i] != b[i] && le(a[i], b[i]) {
          assert a[1..][..i - 1] == a[..i][1..] && b[1..][..i - 1] == b[..i][1..];
          assert a[1..][i - 1] == a[i] && b[1..][i - 1] == b[i];
        }
        assert a[1..] <= b[1..] <==> a <= b;
      } else {
        assert a[..0] == b[..0];
        if i :| 0 <= i < |a| && i < |b| && a[..i] == b[..i] && a[i] != b[i] && le(a[i], b[i]) {
          assert i > 0 ==> a[..i][0] == b[..i][0];
        }
      }
    }
  }

  /** Go's order on strings, spelled out. */
  lemma {:induction false} StringOrderMeans(a: string, b: string)
    ensures
      StringLE(a, b) <==> a <= b || exists i :: 0 <= i < |a| && i < |b| && a[..i] == b[..i] && a[i] < b[i]
  {
    LexMeans(CharLE, a, b);
    if i :| 0 <= i < |a| && i < |b| && a[..i] == b[..i] && a[i] < b[i] {
      assert a[i] != b[i] && CharLE(a[i], b[i]);
    }
  }

  predicate CharLE(x: char, y: char) { x <= y }

  /** Go's order on strings: by bytes of the UTF-8 encoding, which is the order of code points. */
  predicate StringLE(a: string, b: string) { LexLE(CharLE, a, b) }

  /** The order in which a directory walk visits relative paths, component by component. */
  predicate PathLE(a: seq<string>, b: seq<string>) { LexLE(StringLE, a, b) }

  lemma {:induction false} StringOrder()
    ensures TotalOrder(StringLE)
  {
    forall x: string ensures StringLE(x, x) { LexReflexive(CharLE, x); }
    forall x: string, y: string | StringLE(x, y) && StringLE(y, x) ensures x == y { LexAntisymmetric(CharLE, x, y); }
    forall x: string, y: string, z: string | StringLE(x, y) && StringLE(y, z) ensures StringLE(x, z) {
      LexTransitive(CharLE, x, y, z);
    }
    forall x: string, y: string ensures StringLE(x, y) || StringLE(y, x) { LexConnected(CharLE, x, y); }
  }

  lemma {:induction false} PathOrder()
    ensures TotalOrder(PathLE)
  {
    StringOrder();
    forall x: seq<string> ensures PathLE(x, x) { LexReflexive(StringLE, x); }
    forall x: seq<string>, y: seq<string> | PathLE(x, y) && PathLE(y, x) ensures x == y {
      LexAntisymmetric(StringLE, x, y);
    }
    forall x: seq<string>, y: seq<string>, z: seq<string> | PathLE(x, y) && PathLE(y, z) ensures PathLE(x, z) {
      LexTransitive(StringLE, x, y, z);
    }
    forall x: seq<string>, y: seq<string> ensures PathLE(x, y) || PathLE(y, x) { LexConnected(StringLE, x, y); }
  }

  ghost predicate IsLeast<T(!new)>(le: (T, T) -> bool, m: T, keys: set<T>) {
    m in keys && forall k :: k in keys ==> le(m, k)
  }

  lemma {:induction false} HasLeast<T(!new)>(le: (T, T) -> bool, keys: set<T>)
    requires TotalOrder(le) && keys != {}
    ensures exists m :: IsLeast(le, m, keys)
  {
    var x :| x in keys;
    if keys == {x} {
      assert IsLeast(le, x, keys);
    } else {
      var rest := keys - {x};
      HasLeast(le, rest);
      var m :| IsLeast(le, m, rest);
      assert IsLeast(le, if le(x, m) then x else m, keys);
    }
  }

  /** The elements of `keys` in increasing order. */
  ghost function Sorted<T(!new)>(le: (T, T) -> bool, keys: set<T>): (r: seq<T>)
    requires TotalOrder(le)
    ensures forall x :: x in r <==> x in keys
    ensures forall i, j :: 0 <= i < j < |r| ==> le(r[i], r[j]) && r[i] != r[j]
    decreases |keys|
  {
    if keys == {} then []
    else
      HasLeast(le, keys);
      var m :| IsLeast(le, m, keys);
      [m] + Sorted(le, keys - {m})
  }

  /** A sequence without repetition is determined by its elements and its order. */
  lemma {:induction false} SortedUnique<T(!new)>(le: (T, T) -> bool, a: seq<T>, b: seq<T>)
    requires TotalOrder(le)
    requires forall x :: x in a <==> x in b
    requires forall i, j :: 0 <= i < j < |a| ==> le(a[i], a[j]) && a[i] != a[j]
    requires forall i, j :: 0 <= i < j < |b| ==> le(b[i], b[j]) && b[i] != b[j]
    ensures a == b
  {
    if a == [] {
      assert forall i :: 0 <= i < |b| ==> b[i] in b;
    } else {
      assert a[0] in b;
      assert b[0] in a;
      assert a[0] == b[0];
      forall x ensures x in a[1..] <==> x in b[1..] {
        if x in a[1..] { assert x in b; }
        if x in b[1..] { assert x in a; }
      }
      SortedUnique(le, a[1..], b[1..]);
      assert a == [a[0]] + a[1..] && b == [b[0]] + b[1..];
    }
  }

  /** In the sorted enumeration a strictly smaller element stands before a larger one. */
  lemma {:induction false} SmallerComesFirst<T(!new)>(le: (T, T) -> bool, keys: set<T>, a: T, i: nat)
    requires TotalOrder(le) && a in keys && i < |Sorted(le, keys)|
    requires le(a, Sorted(le, keys)[i]) && a != Sorted(le, keys)[i]
    ensures a in Sorted(le, keys)[..i]
  {
    var s := Sorted(le, keys);
    assert a in s;
    var j :| 0 <= j < |s| && s[j] == a;
    assert j < i;
    assert s[..i][j] == a;
  }

  lemma {:induction false} LeastComesFirst<T(!new)>(le: (T, T) -> bool, m: T, keys: set<T>)
    requires TotalOrder(le) && IsLeast(le, m, keys)
    ensures Sorted(le, keys) == [m] + Sorted(le, keys - {m})
  {
    var rest := Sorted(le, keys - {m});
    var s := [m] + rest;
    assert forall j :: 0 < j < |s| ==> s[j] in rest;
    forall x ensures x in s <==> x in keys {
      assert x in s <==> x == m || x in rest;
    }
    SortedUnique(le, Sorted(le, keys), s);
  }

  /** Strings and paths in increasing order. */
  ghost function SortedStrings(keys: set<string>): (r: seq<string>)
    ensures forall x :: x in r <==> x in keys
    ensures forall i, j :: 0 <= i < j < |r| ==> r[i] != r[j]
  {
    StringOrder();
    Sorted(StringLE, keys)
  }

  ghost function SortedPaths(keys: set<seq<string>>): (r: seq<seq<string>>)
    ensures forall x :: x in r <==> x in keys
    ensures forall i, j :: 0 <= i < j < |r| ==> r[i] != r[j]
  {
    PathOrder();
    Sorted(PathLE, keys)
  }

  /** Picking the least string of a set, as a loop over a sorted listing does. */
  method FirstString(keys: set<string>) returns (m: string)
    requires keys != {}
    ensures m in keys && SortedStrings(keys) == [m] + SortedStrings(keys - {m})
  {
    StringOrder();
    HasLeast(StringLE, keys);
    m :| m in keys && forall k :: k in keys ==> StringLE(m, k);
    LeastComesFirst(StringLE, m, keys);
  }

  method FirstPath(keys: set<seq<string>>) returns (m: seq<string>)
    requires keys != {}
    ensures m in keys && SortedPaths(keys) == [m] + SortedPaths(keys - {m})
  {
    PathOrder();
    HasLeast(PathLE, keys);
    m :| m in keys && forall k :: k in keys ==> PathLE(m, k);
    LeastComesFirst(PathLE, m, keys);
  }
}
