/** Counting the elements of a listing that have a property. */
module Counting {

  function CountIf<T>(p: T -> bool, s: seq<T>): nat {
    if s == [] then 0 else CountIf(p, s[..|s| - 1]) + if p(s[|s| - 1]) then 1 else 0
  }

  /** The first `n` places that satisfy the property. */
  function Hits<T>(p: T -> bool, s: seq<T>, n: nat): set<int>
    requires n <= |s|
  {
    set i | 0 <= i < n && p(s[i])
  }

  /** The running count is the number of places that satisfy the property. */
  lemma {:induction false} CountIsCardinality<T>(p: T -> bool, s: seq<T>, n: nat)
    requires n <= |s|
    ensures CountIf(p, s[..n]) == |Hits(p, s, n)|
  {
    if n > 0 {
      CountIsCardinality(p, s, n - 1);
      assert s[..n][..n - 1] == s[..n - 1];
      assert Hits(p, s, n) == Hits(p, s, n - 1) + if p(s[n - 1]) then {n - 1} else {};
    }
  }

  lemma {:induction false} CountPositive<T>(p: T -> bool, s: seq<T>)
    ensures CountIf(p, s) > 0 <==> exists i :: 0 <= i < |s| && p(s[i])
  {
    if s != [] {
      CountPositive(p, s[..|s| - 1]);
    }
  }

  /** Two different hits make the count exceed one. */
  lemma {:induction false} CountTwo<T>(p: T -> bool, s: seq<T>, i: nat, j: nat)
    requires i < j < |s| && p(s[i]) && p(s[j])
    ensures CountIf(p, s) > 1
  {
    var rest := s[..|s| - 1];
    if j == |s| - 1 {
      assert rest[i] == s[i];
      CountPositive(p, rest);
    } else {
      CountTwo(p, rest, i, j);
    }
  }

  lemma {:induction false} CountConcat<T>(p: T -> bool, a: seq<T>, b: seq<T>)
    ensures CountIf(p, a + b) == CountIf(p, a) + CountIf(p, b)
  {
    if b == [] {
      assert a + b == a;
    } else {
      assert (a + b)[..|a + b| - 1] == a + b[..|b| - 1];
      CountConcat(p, a, b[..|b| - 1]);
    }
  }

  /** A listing that contains at least the same objects, in any order, never counts fewer. */
  lemma {:induction false} CountConservative<T>(p: T -> bool, a: seq<T>, b: seq<T>)
    requires multiset(a) <= multiset(b)
    ensures CountIf(p, a) <= CountIf(p, b)
  {
    if a != [] {
      var x, rest := a[|a| - 1], a[..|a| - 1];
      assert a == rest + [x];
      assert multiset(a) == multiset(rest) + multiset{x};
      assert x in multiset(b);
      var k :| 0 <= k < |b| && b[k] == x;
      var others := b[..k] + b[k + 1..];
      assert b == b[..k] + [x] + b[k + 1..];
      assert multiset(b) == multiset(others) + multiset{x};
      forall y ensures multiset(rest)[y] <= multiset(others)[y] {
        assert multiset(a)[y] <= multiset(b)[y];
      }
      CountConservative(p, rest, others);
      CountConcat(p, b[..k], b[k + 1..]);
      CountConcat(p, b[..k] + [x], b[k + 1..]);
      CountConcat(p, b[..k], [x]);
      CountConcat(p, rest, [x]);
    }
  }
}
