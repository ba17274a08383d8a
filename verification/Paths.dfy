/**
 MFS paths: `path.Clean` by its documented rules, the confinement test of
 `normalizeMFSPath`, and the naming scheme of automatically provisioned volumes.
 */
module Paths {
  import opened Results

  type Path = seq<string>

  predicate IsAbs(s: string) { s != "" && s[0] == '/' }

  /** The slash-separated elements of a path, empty ones included. */
  function Split(s: string): (cs: Path)
    ensures cs != []
    ensures forall c :: c in cs ==> '/' !in c
  {
    if s == "" then [""]
    else
      var rest := Split(s[1..]);
      if s[0] == '/' then [""] + rest else [[s[0]] + rest[0]] + rest[1..]
  }

  /** The rooted spelling of a list of components; the empty list gives the empty string. */
  function JoinAbs(cs: Path): string {
    if cs == [] then "" else "/" + cs[0] + JoinAbs(cs[1..])
  }

  /** One element of a path applied to the components kept so far. */
  function Push(rooted: bool, stack: Path, c: string): Path {
    if c == "" || c == "." then stack
    else if c == ".." then
      if stack != [] && stack[|stack| - 1] != ".." then stack[..|stack| - 1]
      else if rooted then stack
      else stack + [c]
    else stack + [c]
  }

  function Resolve(rooted: bool, cs: Path, stack: Path): Path {
    if cs == [] then stack else Resolve(rooted, cs[1..], Push(rooted, stack, cs[0]))
  }

  /** The components of `path.Clean(s)`; a relative path may keep leading `..` elements. */
  function CleanComponents(s: string): Path {
    Resolve(IsAbs(s), Split(s), [])
  }

  /** Go's `path.Clean`. */
  function Clean(s: string): string {
    var cs := CleanComponents(s);
    if IsAbs(s) then (if cs == [] then "/" else JoinAbs(cs))
    else if cs == [] then "."
    else JoinAbs(cs)[1..]
  }

  /** The place a path denotes when it is resolved from the MFS root directory. */
  function Location(s: string): Path {
    Resolve(true, Split(s), [])
  }

  function Rooted(s: string): string {
    var c := Clean(s);
    if IsAbs(c) then c else "/" + c
  }

  function NormalizeMFSPath(raw: string, root: string): Result<string> {
    var normalizedRoot := Rooted(root);
    var normalizedPath := Rooted(raw);
    if normalizedPath != normalizedRoot && !(normalizedRoot + "/" <= normalizedPath) then Err(InvalidArgument)
    else Ok(normalizedPath)
  }

  // ---------------------------------------------------------------- cleaning

  predicate IsName(c: string) { c != "" && c != "." && c != ".." && '/' !in c }

  predicate AllNames(cs: Path) { forall c :: c in cs ==> IsName(c) }

  /** `n` leading `..` elements. */
  function Dots(n: nat): Path { seq(n, _ => "..") }

  lemma {:induction false} RootedResolve(cs: Path, stack: Path)
    requires AllNames(stack) && forall c :: c in cs ==> '/' !in c
    ensures AllNames(Resolve(true, cs, stack))
  {
    if cs != [] {
      RootedResolve(cs[1..], Push(true, stack, cs[0]));
    }
  }

  /** Relative cleaning is rooted cleaning behind some leading `..` elements. */
  lemma {:induction false} RelativeResolve(cs: Path, dots: nat, stack: Path) returns (more: nat)
    requires AllNames(stack) && forall c :: c in cs ==> '/' !in c
    ensures dots <= more
    ensures Resolve(false, cs, Dots(dots) + stack) == Dots(more) + Resolve(true, cs, stack)
  {
    more := dots;
    if cs != [] {
      var c := cs[0];
      var relative, rooted := Push(false, Dots(dots) + stack, c), Push(true, stack, c);
      var next := if c == ".." && stack == [] then dots + 1 else dots;
      if c == ".." && stack != [] {
        assert stack[|stack| - 1] in stack;
        assert (Dots(dots) + stack)[..|Dots(dots) + stack| - 1] == Dots(dots) + stack[..|stack| - 1];
      }
      assert relative == Dots(next) + rooted;
      more := RelativeResolve(cs[1..], next, rooted);
    }
  }

  lemma {:induction false} ResolveNames(cs: Path, stack: Path)
    requires AllNames(cs)
    ensures Resolve(true, cs, stack) == stack + cs
  {
    if cs != [] {
      assert cs[0] in cs;
      ResolveNames(cs[1..], stack + [cs[0]]);
      assert stack + [cs[0]] + cs[1..] == stack + cs;
    } else {
      assert stack + cs == stack;
    }
  }

  /** A slash separates the elements before it from the elements after it. */
  lemma {:induction false} SplitConcat(a: string, b: string)
    ensures Split(a + "/" + b) == Split(a) + Split(b)
  {
    var s := a + "/" + b;
    if a == "" {
      assert s[1..] == b;
    } else {
      assert s[1..] == a[1..] + "/" + b;
      SplitConcat(a[1..], b);
    }
  }

  lemma {:induction false} SplitPlain(a: string)
    requires '/' !in a
    ensures Split(a) == [a]
  {
    if a != "" {
      SplitPlain(a[1..]);
      assert [a[0]] + a[1..] == a;
    }
  }

  /** The relative spelling of a list of elements splits into those elements. */
  lemma {:induction false} SplitRelative(cs: Path)
    requires cs != [] && forall c :: c in cs ==> '/' !in c
    ensures Split(JoinAbs(cs)[1..]) == cs
  {
    hide Split;
    var c, rest := cs[0], JoinAbs(cs[1..]);
    SplitPlain(c);
    if |cs| == 1 {
      JoinOne(cs);
    } else {
      SplitRelative(cs[1..]);
      SplitConcat(c, rest[1..]);
      JoinTail(cs);
    }
  }

  lemma {:induction false} JoinOne(cs: Path)
    requires |cs| == 1
    ensures JoinAbs(cs)[1..] == cs[0] && cs == [cs[0]]
  {
    assert JoinAbs(cs[1..]) == "";
    assert JoinAbs(cs)[1..] == cs[0] + "";
  }

  lemma {:induction false} JoinTail(cs: Path)
    requires |cs| > 1
    ensures JoinAbs(cs)[1..] == cs[0] + "/" + JoinAbs(cs[1..])[1..] && cs == [cs[0]] + cs[1..]
  {
    var rest := JoinAbs(cs[1..]);
    assert rest == "/" + rest[1..];
    assert JoinAbs(cs)[1..] == cs[0] + rest;
  }

  /** The rooted spelling has one empty element in front. */
  lemma {:induction false} SplitJoin(cs: Path)
    requires cs != [] && forall c :: c in cs ==> '/' !in c
    ensures Split(JoinAbs(cs)) == [""] + cs
  {
    SplitPlain("");
    hide Split;
    var text := JoinAbs(cs);
    assert text == "" + "/" + text[1..];
    SplitConcat("", text[1..]);
    SplitRelative(cs);
  }

  /** A rooted spelling of plain names denotes exactly those names. */
  lemma {:induction false} LocationOfJoin(cs: Path)
    requires AllNames(cs)
    ensures Location(JoinAbs(cs)) == cs
  {
    if cs != [] {
      SplitJoin(cs);
      assert ([""] + cs)[1..] == cs;
      ResolveNames(cs, []);
    }
  }

  // ------------------------------------------------------- the rules of cleaning, on text

  lemma {:induction false} ResolveConcat(rooted: bool, a: Path, b: Path, stack: Path)
    ensures Resolve(rooted, a + b, stack) == Resolve(rooted, b, Resolve(rooted, a, stack))
  {
    if a == [] {
      assert a + b == b;
    } else {
      assert (a + b)[1..] == a[1..] + b;
      ResolveConcat(rooted, a[1..], b, Push(rooted, stack, a[0]));
    }
  }

  /** An element in the middle of a path, between slashes. */
  lemma {:induction false} MiddleElement(rooted: bool, a: string, c: string, b: string)
    requires '/' !in c
    ensures
      Resolve(rooted, Split(a + "/" + c + "/" + b), []) ==
      Resolve(rooted, Split(b), Push(rooted, Resolve(rooted, Split(a), []), c))
  {
    hide Push;
    SplitConcat(a + "/" + c, b);
    SplitConcat(a, c);
    SplitPlain(c);
    ResolveConcat(rooted, Split(a) + [c], Split(b), []);
    ResolveAppend(rooted, Split(a), c, []);
  }

  lemma {:induction false} TwoParts(rooted: bool, a: string, b: string)
    ensures Resolve(rooted, Split(a + "/" + b), []) == Resolve(rooted, Split(b), Resolve(rooted, Split(a), []))
  {
    hide Push;
    SplitConcat(a, b);
    ResolveConcat(rooted, Split(a), Split(b), []);
  }

  /**
   The rules of `path.Clean` on text, whatever stands before and behind: a name followed by
   `..` goes away with it, `.` and empty elements go away, and `..` at the root goes nowhere.
   With `LocationOfJoin`, which reads off what is left, they determine every location.
   */
  lemma {:induction false} CleaningRules(a: string, n: string, b: string)
    requires IsName(n)
    ensures Location(a + "/" + n + "/" + ".." + "/" + b) == Location(a + "/" + b)
    ensures Location(a + "/" + "." + "/" + b) == Location(a + "/" + b)
    ensures Location(a + "/" + "" + "/" + b) == Location(a + "/" + b)
    ensures Location("" + "/" + ".." + "/" + b) == Location("" + "/" + b)
    ensures Location("" + "/" + b) == Location(b)
  {
    RootAlone();
    NameAlone(true, a, n);
    hide Split, Resolve;
    TwoParts(true, a, b);
    TwoParts(true, "", b);
    MiddleElement(true, a, ".", b);
    MiddleElement(true, a, "", b);
    MiddleElement(true, "", "..", b);
    MiddleElement(true, a + "/" + n, "..", b);
    var stack := Resolve(true, Split(a), []);
    assert (stack + [n])[..|stack|] == stack;
  }

  lemma {:induction false} RootAlone()
    ensures Resolve(true, Split(""), []) == []
  {
    SplitPlain("");
  }

  /** A name adds itself to what stands before it. */
  lemma {:induction false} NameAlone(rooted: bool, a: string, n: string)
    requires IsName(n)
    ensures Resolve(rooted, Split(a + "/" + n), []) == Resolve(rooted, Split(a), []) + [n]
    ensures Resolve(rooted, Split(n), []) == [n]
  {
    SplitPlain(n);
    assert Resolve(rooted, [n], []) == [n];
    hide Split, Resolve;
    SplitConcat(a, n);
    ResolveAppend(rooted, Split(a), n, []);
  }

  /** The same for the components of a cleaned path, which may be relative; there `..` at the start stays. */
  lemma {:induction false} RelativeCleaningRules(a: string, n: string, b: string)
    requires IsName(n) && a != "" && !IsAbs(a) && !IsAbs(b)
    ensures CleanComponents(a + "/" + n + "/" + ".." + "/" + b) == CleanComponents(a + "/" + b)
    ensures CleanComponents(n + "/" + ".." + "/" + b) == CleanComponents(b)
    ensures CleanComponents(".." + "/" + b) == [".."] + CleanComponents(b)
  {
    NameThenDots(a, n, b);
    FrontRules(n, b);
  }

  lemma {:induction false} NameThenDots(a: string, n: string, b: string)
    requires IsName(n) && a != "" && !IsAbs(a)
    ensures CleanComponents(a + "/" + n + "/" + ".." + "/" + b) == CleanComponents(a + "/" + b)
  {
    hide Split, Resolve;
    NameAlone(false, a, n);
    TwoParts(false, a, b);
    MiddleElement(false, a + "/" + n, "..", b);
    assert (a + "/" + n + "/" + ".." + "/" + b)[0] == a[0] == (a + "/" + b)[0];
    var stack := Resolve(false, Split(a), []);
    assert (stack + [n])[..|stack|] == stack;
  }

  lemma {:induction false} FrontRules(n: string, b: string)
    requires IsName(n) && !IsAbs(b)
    ensures CleanComponents(n + "/" + ".." + "/" + b) == CleanComponents(b)
    ensures CleanComponents(".." + "/" + b) == [".."] + CleanComponents(b)
  {
    hide Split, Resolve;
    DotsAlone();
    NameAlone(false, "", n);
    MiddleElement(false, n, "..", b);
    TwoParts(false, "..", b);
    assert (n + "/" + ".." + "/" + b)[0] == n[0] && n[0] in n && (".." + "/" + b)[0] == '.';
    assert [n][..0] == [];
    BehindDots(Split(b), []);
    assert [".."] + [] == [".."];
  }

  lemma {:induction false} DotsAlone()
    ensures Resolve(false, Split(".."), []) == [".."]
  {
    SplitPlain("..");
    assert Resolve(false, [".."], []) == [".."];
  }

  lemma {:induction false} BehindDots(cs: Path, stack: Path)
    ensures Resolve(false, cs, [".."] + stack) == [".."] + Resolve(false, cs, stack)
  {
    if cs != [] {
      var up := [".."] + stack;
      if cs[0] == ".." && stack != [] && stack[|stack| - 1] != ".." {
        assert up[..|up| - 1] == [".."] + stack[..|stack| - 1];
      } else {
        assert up + [cs[0]] == [".."] + (stack + [cs[0]]);
      }
      assert Push(false, up, cs[0]) == [".."] + Push(false, stack, cs[0]);
      BehindDots(cs[1..], Push(false, stack, cs[0]));
    }
  }

  /** Making a path rooted does not change the place it denotes. */
  lemma {:induction false} RootedSamePlace(raw: string)
    ensures Location(Rooted(raw)) == Location(raw)
  {
    CleanFacts(raw);
    RootedResolve(Split(raw), []);
    if IsAbs(raw) {
      LocationOfJoin(Location(raw));
      assert Split("/") == ["", ""];
    } else {
      var dots := RelativeResolve(Split(raw), 0, []);
      assert Dots(0) + [] == [];
      var cs := CleanComponents(raw);
      assert cs == Dots(dots) + Location(raw);
      if cs == [] {
        SplitConcat("", ".");
        SplitPlain("");
        SplitPlain(".");
        assert "" + "/" + "." == "/." && Split("/.") == ["", "."] && ["", "."][1..] == ["."];
        assert Resolve(true, ["."], []) == [];
        assert |Location(raw)| == 0;
      } else {
        assert forall c :: c in cs ==> '/' !in c;
        SplitJoin(cs);
        assert ([""] + cs)[1..] == cs;
        ResolveConcat(true, Dots(dots), Location(raw), []);
        DotsGoNowhere(dots);
        ResolveNames(Location(raw), []);
        assert [] + Location(raw) == Location(raw);
      }
    }
  }

  lemma {:induction false} DotsGoNowhere(n: nat)
    ensures Resolve(true, Dots(n), []) == []
  {
    if n > 0 {
      assert Dots(n)[1..] == Dots(n - 1);
      DotsGoNowhere(n - 1);
    }
  }

  // ------------------------------------------------------- the confinement test

  lemma {:induction false} JoinInjective(a: Path, b: Path)
    requires forall c :: c in a + b ==> '/' !in c
    ensures JoinAbs(a) == JoinAbs(b) ==> a == b
  {
    if a != [] && b != [] && JoinAbs(a) == JoinAbs(b) {
      assert forall c :: c in a ==> c in a + b;
      assert forall c :: c in b ==> c in a + b;
      SplitJoin(a);
      SplitJoin(b);
      assert ([""] + a)[1..] == a && ([""] + b)[1..] == b;
    }
  }

  lemma {:induction false} JoinConcat(a: Path, b: Path)
    ensures JoinAbs(a + b) == JoinAbs(a) + JoinAbs(b)
  {
    if a == [] {
      assert a + b == b;
    } else {
      assert (a + b)[1..] == a[1..] + b;
      JoinConcat(a[1..], b);
    }
  }

  /** The textual prefix test `root + "/"` is the test for a proper prefix of components. */
  lemma {:induction false} PrefixTest(root: Path, p: Path)
    requires forall c :: c in root + p ==> '/' !in c
    ensures JoinAbs(root) + "/" <= JoinAbs(p) <==> root < p
  {
    if root < p {
      var rest := p[|root|..];
      assert p == root + rest;
      JoinConcat(root, rest);
    }
    if JoinAbs(root) + "/" <= JoinAbs(p) {
      PrefixFound(root, p);
    }
  }

  lemma {:induction false} PrefixFound(root: Path, p: Path)
    requires forall c :: c in root + p ==> '/' !in c
    requires JoinAbs(root) + "/" <= JoinAbs(p)
    ensures root < p
  {
    var tail := JoinAbs(p)[|JoinAbs(root)| + 1..];
    assert JoinAbs(p) == JoinAbs(root) + "/" + tail;
    assert forall c :: c in p ==> c in root + p;
    assert forall c :: c in root ==> c in root + p;
    SplitJoin(p);
    if root != [] {
      SplitJoin(root);
    }
    PrefixInText(JoinAbs(root), tail, root, p);
  }

  lemma {:induction false} PrefixInText(head: string, tail: string, root: Path, p: Path)
    requires Split(head) == [""] + root
    requires Split(head + "/" + tail) == [""] + p
    ensures root < p
  {
    SplitConcat(head, tail);
    assert [""] + p == [""] + (root + Split(tail));
    SameRest(p, root + Split(tail));
  }

  lemma {:induction false} SameRest(a: Path, b: Path)
    requires [""] + a == [""] + b
    ensures a == b
  {
    assert a == ([""] + a)[1..] && b == ([""] + b)[1..];
  }

  lemma {:induction false} CleanFacts(s: string)
    ensures Cleaned(CleanComponents(s))
    ensures AllNames(Location(s))
    ensures IsAbs(s) ==> CleanComponents(s) == Location(s)
    ensures CleanComponents(s) != [] && CleanComponents(s)[0] != ".." ==> CleanComponents(s) == Location(s)
    ensures Rooted(s) == Spelled(CleanComponents(s), IsAbs(s))
  {
    RootedResolve(Split(s), []);
    if !IsAbs(s) {
      var dots := RelativeResolve(Split(s), 0, []);
      assert Dots(0) + [] == [];
      assert CleanComponents(s) == Dots(dots) + Location(s);
      RelativeSpelling(CleanComponents(s));
    }
  }

  lemma {:induction false} RelativeSpelling(cs: Path)
    requires Cleaned(cs)
    ensures cs != [] ==> JoinAbs(cs) != "" && !IsAbs(JoinAbs(cs)[1..]) && "/" + JoinAbs(cs)[1..] == JoinAbs(cs)
  {
    if cs != [] {
      assert cs[0] in cs && JoinAbs(cs)[1] == cs[0][0];
    }
  }

  /** No list of cleaned components is spelled `/.` or begins with `//` or `/./`. */
  lemma {:induction false} SpellingOfComponents(cs: Path)
    requires cs != [] && Cleaned(cs)
    ensures JoinAbs(cs) != "/." && JoinAbs(cs) != "/"
    ensures !("//" <= JoinAbs(cs)) && !("/./" <= JoinAbs(cs))
  {
    var head, tail := cs[0], JoinAbs(cs[1..]);
    assert head in cs;
    assert JoinAbs(cs) == "/" + (head + tail) && JoinAbs(cs)[1] == head[0];
    NotADot(head, tail);
  }

  lemma {:induction false} NotADot(head: string, tail: string)
    requires head != "" && head != "." && '/' !in head
    ensures
      var text := "/" + (head + tail);
      text != "/." && text != "/" && !("//" <= text) && !("/./" <= text)
  {
    var text := "/" + (head + tail);
    assert text[1] == head[0];
    assert |head| > 1 ==> text[2] == head[1];
    assert |head| == 1 ==> head[0] != '.';
  }

  /**
   Acceptance, for every path and every configured root. With a root of at least one
   component it is the component-prefix test; the roots `/` and `.` accept one text each.
   */
  lemma {:induction false} AcceptedExactly(raw: string, root: string)
    ensures
      var r, p := CleanComponents(root), CleanComponents(raw);
      NormalizeMFSPath(raw, root).Ok? <==>
        if r != [] then r <= p else p == [] && IsAbs(raw) == IsAbs(root)
  {
    CleanFacts(raw);
    CleanFacts(root);
    TextTest(CleanComponents(root), IsAbs(root), CleanComponents(raw), IsAbs(raw));
  }

  predicate Cleaned(cs: Path) { forall c :: c in cs ==> '/' !in c && c != "" && c != "." }

  function Spelled(cs: Path, rooted: bool): string {
    if cs != [] then JoinAbs(cs) else if rooted then "/" else "/."
  }

  lemma {:induction false} TextTest(r: Path, rRooted: bool, p: Path, pRooted: bool)
    requires Cleaned(r) && Cleaned(p)
    ensures
      Spelled(p, pRooted) == Spelled(r, rRooted) || Spelled(r, rRooted) + "/" <= Spelled(p, pRooted) <==>
        if r != [] then r <= p else p == [] && pRooted == rRooted
  {
    if r != [] && p != [] {
      assert forall c :: c in r + p ==> '/' !in c;
      PrefixTest(r, p);
      JoinInjective(r, p);
      assert r <= p <==> r == p || r < p;
    } else if r != [] {
      SpellingOfComponents(r);
    } else if p != [] {
      SpellingOfComponents(p);
      assert "/" + "/" == "//" && "/." + "/" == "/./";
    } else {
      assert ("/" + "/")[1] != "/."[1];
    }
  }

  /** A root that names a place strictly below `/` without climbing above its start. */
  predicate SafeRoot(root: string) {
    CleanComponents(root) != [] && CleanComponents(root)[0] != ".."
  }

  /**
   What acceptance means: the result is rooted, spelled without `.`, `..` or empty
   elements, lies under the root, denotes the place the raw path denotes from `/`,
   and normalizes to itself.
   */
  lemma {:induction false} NormalizationConfines(raw: string, root: string)
    requires SafeRoot(root)
    requires NormalizeMFSPath(raw, root).Ok?
    ensures
      var out := NormalizeMFSPath(raw, root).value;
      && IsAbs(out)
      && AllNames(Location(out)) && out == JoinAbs(Location(out))
      && Location(root) <= Location(out) && Location(root) != []
      && Location(out) == Location(raw)
      && NormalizeMFSPath(out, root) == Ok(out)
  {
    var out := NormalizeMFSPath(raw, root).value;
    var p := CleanComponents(raw);
    AcceptedExactly(raw, root);
    CleanFacts(raw);
    CleanFacts(root);
    assert p == Location(raw);
    assert out == JoinAbs(p);
    LocationOfJoin(p);
    assert p[0] in p && IsAbs(out);
    CleanFacts(out);
    AcceptedExactly(out, root);
  }

  /**
   A relative path that climbs above its own start; `RelativeCleaningRules` says what is left
   at its front.
   */
  predicate Climbs(raw: string) {
    !IsAbs(raw) && CleanComponents(raw) != [] && CleanComponents(raw)[0] == ".."
  }

  /**
   When a path is refused: it denotes a place outside the root, or it is relative and
   climbs above its own start, in which case it is refused even if it comes back inside.
   */
  lemma {:induction false} RefusedExactly(raw: string, root: string)
    requires SafeRoot(root)
    ensures
      NormalizeMFSPath(raw, root).Err? <==>
        !(Location(root) <= Location(raw)) || Climbs(raw)
  {
    AcceptedExactly(raw, root);
    CleanFacts(raw);
    CleanFacts(root);
    if !IsAbs(raw) && CleanComponents(raw) == [] {
      var dots := RelativeResolve(Split(raw), 0, []);
      assert Dots(0) + [] == [];
      assert |Location(raw)| == 0;
    }
    if IsAbs(raw) {
      assert CleanComponents(raw) != [] ==> CleanComponents(raw)[0] in CleanComponents(raw);
    }
  }

  lemma {:induction false} AbsoluteNeverClimbs(raw: string)
    requires IsAbs(raw)
    ensures !Climbs(raw)
  {
  }

  /**
   Climbing out of an absolute root: a path that leaves it by `..` is accepted exactly if what
   follows leads back under it from the parent of the root.
   */
  lemma {:induction false} EscapeRefused(root: string, x: string)
    requires SafeRoot(root) && IsAbs(root)
    ensures
      var r := Location(root);
      && r != []
      && (NormalizeMFSPath(root + "/" + ".." + "/" + x, root).Ok? <==>
            r <= Location(JoinAbs(r[..|r| - 1]) + "/" + x))
  {
    hide Split, Resolve, NormalizeMFSPath, JoinAbs, CleanComponents, Climbs;
    var (r, raw) := (Location(root), root + "/" + ".." + "/" + x);
    CleanFacts(root);
    RefusedExactly(raw, root);
    assert IsAbs(raw);
    AbsoluteNeverClimbs(raw);
    var up := r[..|r| - 1];
    assert r[|r| - 1] in r && AllNames(up);
    MiddleElement(true, root, "..", x);
    TwoParts(true, JoinAbs(up), x);
    LocationOfJoin(up);
  }

  // ---------------------------------------------------------------- naming

  predicate IsSafeChar(c: char) { 'a' <= c <= 'z' || '0' <= c <= '9' || c == '-' }

  /**
   `strings.ToLower` as far as the sanitizer can see it: two letters outside ASCII
   (U+0130 and U+212A) have a lower case inside it; every other one stays outside.
   */
  function Lower(c: char): char {
    if 'A' <= c <= 'Z' then c + 32 as char
    else if c == '\U{0130}' then 'i'
    else if c == '\U{212A}' then 'k'
    else c
  }

  function SanitizeChar(c: char): (r: char)
    ensures IsSafeChar(r)
    ensures IsSafeChar(c) ==> r == c
    ensures 'a' <= c <= 'z' || '0' <= c <= '9' ==> r == c
    ensures 'A' <= c <= 'Z' ==> 'a' <= r <= 'z' && r as int - 'a' as int == c as int - 'A' as int
    ensures c < '0' || '9' < c < 'A' || 'Z' < c < 'a' || 'z' < c < '\U{0080}' ==> r == '-'
  {
    var l := Lower(c);
    if IsSafeChar(l) then l else '-'
  }

  const MAX_ID_LENGTH := 128

  /** How many characters of a name the sanitizer keeps. */
  function KeptLength(name: string): nat { if |name| > MAX_ID_LENGTH then MAX_ID_LENGTH else |name| }

  function Sanitize(name: string): (r: string)
    ensures forall i :: 0 <= i < |r| ==> IsSafeChar(r[i])
    ensures |r| == KeptLength(name) == if |name| > 128 then 128 else |name|
    ensures forall i :: 0 <= i < |r| ==> r[i] == SanitizeChar(name[i])
  {
    var s := seq(|name|, i requires 0 <= i < |name| => SanitizeChar(name[i]));
    if |s| > MAX_ID_LENGTH then s[..MAX_ID_LENGTH] else s
  }

  const VOLUME_PREFIX := "ipfs-volume-"

  function VolumeId(name: string): string { VOLUME_PREFIX + Sanitize(name) }

  /** The sanitized name is left alone by a second pass, and is a single path component. */
  lemma {:induction false} SanitizeStable(name: string)
    ensures Sanitize(Sanitize(name)) == Sanitize(name)
    ensures name != "" ==> IsName(Sanitize(name))
  {
    var s := Sanitize(name);
    assert Sanitize(s) == s;
    if name != "" {
      assert IsSafeChar(s[0]) && s[0] != '.';
    }
  }

  /**
   When two names share one identifier: exactly if they keep the same number of characters
   and those become the same characters one by one.
   */
  lemma {:induction false} NamesCollideExactly(a: string, b: string)
    ensures
      VolumeId(a) == VolumeId(b) <==>
        && KeptLength(a) == KeptLength(b)
        && forall i :: 0 <= i < KeptLength(a) ==> SanitizeChar(a[i]) == SanitizeChar(b[i])
  {
    var x, y, n := Sanitize(a), Sanitize(b), |VOLUME_PREFIX|;
    assert VolumeId(a)[n..] == x && VolumeId(b)[n..] == y;
    if |x| == |y| && forall i :: 0 <= i < |x| ==> SanitizeChar(a[i]) == SanitizeChar(b[i]) {
      assert forall i :: 0 <= i < |x| ==> x[i] == y[i];
      assert x == y;
    }
    if x == y {
      assert forall i :: 0 <= i < KeptLength(a) ==> SanitizeChar(a[i]) == x[i] == y[i];
    }
  }

  /** A name the sanitizer has nothing to do for. */
  predicate AlreadySafe(name: string) { |name| <= MAX_ID_LENGTH && forall c :: c in name ==> IsSafeChar(c) }

  /** Names made of lower-case letters, digits and hyphens, and not too long, never collide. */
  lemma {:induction false} SafeNamesNeverCollide(a: string, b: string)
    requires AlreadySafe(a) && AlreadySafe(b)
    ensures VolumeId(a) == VolumeId(b) <==> a == b
  {
    NamesCollideExactly(a, b);
    if VolumeId(a) == VolumeId(b) {
      assert forall i :: 0 <= i < |a| ==> a[i] in a && b[i] in b && a[i] == b[i];
    }
  }

  /** For instance, a dot and a hyphen look the same. */
  lemma {:induction false} SanitizeCollides()
    ensures "a.b" != "a-b" && VolumeId("a.b") == VolumeId("a-b")
  {
    assert Sanitize("a.b") == "a-b" == Sanitize("a-b");
  }

  lemma {:induction false} ResolveAppend(rooted: bool, cs: Path, c: string, stack: Path)
    ensures Resolve(rooted, cs + [c], stack) == Push(rooted, Resolve(rooted, cs, stack), c)
  {
    if cs != [] {
      assert (cs + [c])[1..] == cs[1..] + [c];
      ResolveAppend(rooted, cs[1..], c, Push(rooted, stack, cs[0]));
    } else {
      assert ([c])[1..] == [];
    }
  }

  /** The default path of a volume is always accepted, one component below the root. */
  lemma {:induction false} AutoPath(name: string, root: string)
    requires SafeRoot(root) && name != ""
    ensures
      var path := NormalizeMFSPath(root + "/" + Sanitize(name), root);
      path.Ok? && Location(path.value) == Location(root) + [Sanitize(name)]
  {
    var s := Sanitize(name);
    var raw := root + "/" + s;
    SanitizeStable(name);
    SplitConcat(root, s);
    SplitPlain(s);
    CleanFacts(root);
    assert CleanComponents("") == Push(false, [], "");
    assert root != "";
    assert IsAbs(raw) == IsAbs(root);
    ResolveAppend(IsAbs(raw), Split(root), s, []);
    ResolveAppend(true, Split(root), s, []);
    AcceptedExactly(raw, root);
    NormalizationConfines(raw, root);
  }
}
