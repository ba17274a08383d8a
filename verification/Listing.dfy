/** Listing volumes page by page. */
module Listing {
  import opened Results
  import opened Integers
  import opened Orders
  import opened VolumeStore

  // ------------------------------------------------------------ tokens

  predicate IsDigit(c: char) { '0' <= c <= '9' }

  predicate AllDigits(s: string) { forall i :: 0 <= i < |s| ==> IsDigit(s[i]) }

  function Itoa(n: nat): (s: string)
    ensures s != "" && AllDigits(s)
  {
    var last := ['0' + (n % 10) as char];
    if n < 10 then last else Itoa(n / 10) + last
  }

  function Digits(s: string): nat
    requires AllDigits(s)
  {
    if s == "" then 0
    else
      assert IsDigit(s[|s| - 1]);
      10 * Digits(s[..|s| - 1]) + (s[|s| - 1] as int - '0' as int)
  }

  /** Go's `strconv.Atoi` on a 64-bit machine: an optional sign, then digits, within range. */
  function Atoi(s: string): Option<int> {
    var signed := s != "" && (s[0] == '-' || s[0] == '+');
    var digits := if signed then s[1..] else s;
    if digits == "" || !AllDigits(digits) then None
    else
      var value := if s[0] == '-' then -(Digits(digits) as int) else Digits(digits) as int;
      if -MAX_INT64 - 1 <= value <= MAX_INT64 then Some(value) else None
  }

  lemma {:induction false} DigitsOfItoa(n: nat)
    ensures Digits(Itoa(n)) == n
  {
    var last := ['0' + (n % 10) as char];
    if n < 10 {
      assert last[..0] == "";
    } else {
      DigitsOfItoa(n / 10);
      assert Itoa(n)[..|Itoa(n)| - 1] == Itoa(n / 10);
    }
  }

  /** A token reads back as the number it was made from. */
  lemma {:induction false} TokenRoundTrip(n: nat)
    requires n <= MAX_INT64
    ensures Atoi(Itoa(n)) == Some(n)
  {
    DigitsOfItoa(n);
    assert IsDigit(Itoa(n)[0]);
  }

  /** The token is a way to write the number: leading zeros and a sign are allowed. */
  ghost predicate Writes(token: string, n: nat) { exists k: nat :: WritesBehind(token, k, n) }

  predicate WritesBehind(token: string, k: nat, n: nat) {
    || token == Zeros(k) + Itoa(n) || token == "+" + Zeros(k) + Itoa(n)
    || (n == 0 && token == "-" + Zeros(k) + Itoa(n))
  }

  function Zeros(k: nat): string { seq(k, _ => '0') }

  lemma {:induction false} DigitsBehindZeros(k: nat, s: string)
    requires AllDigits(s)
    ensures AllDigits(Zeros(k) + s)
    ensures Digits(Zeros(k) + s) == Digits(s)
  {
    var t := Zeros(k) + s;
    if s != "" {
      assert t[..|t| - 1] == Zeros(k) + s[..|s| - 1];
      DigitsBehindZeros(k, s[..|s| - 1]);
    } else if k > 0 {
      assert t == Zeros(k) && t[..k - 1] == Zeros(k - 1) + "";
      DigitsBehindZeros(k - 1, "");
    }
  }

  lemma {:induction false} ItoaStep(m: nat, d: nat)
    requires d < 10
    ensures Itoa(10 * m + d) == (if m == 0 then "" else Itoa(m)) + ['0' + d as char]
  {
    assert (10 * m + d) / 10 == m && (10 * m + d) % 10 == d;
    assert "" + ['0' + d as char] == ['0' + d as char];
  }

  /** A text of digits is its number behind zeros. */
  lemma {:induction false} DigitsAreItoa(s: string) returns (k: nat)
    requires s != "" && AllDigits(s)
    ensures s == Zeros(k) + Itoa(Digits(s))
  {
    hide Itoa;
    var (rest, last) := (s[..|s| - 1], s[|s| - 1]);
    assert IsDigit(last) && s == rest + [last];
    var d := last as int - '0' as int;
    ItoaStep(Digits(rest), d);
    k := 0;
    if rest != "" {
      k := DigitsAreItoa(rest);
      if Digits(rest) == 0 {
        ItoaStep(0, 0);
        assert rest == Zeros(k) + "0" == Zeros(k + 1);
        k := k + 1;
      }
    }
  }

  /** Reading digits, with or without a sign in front. */
  lemma {:induction false} AtoiOfDigits(digits: string)
    requires digits != "" && AllDigits(digits) && Digits(digits) <= MAX_INT64
    ensures Atoi(digits) == Some(Digits(digits)) && Atoi("+" + digits) == Some(Digits(digits))
    ensures Atoi("-" + digits) == Some(-(Digits(digits) as int))
  {
    hide Digits;
    assert IsDigit(digits[0]);
    assert ("+" + digits)[1..] == digits && ("-" + digits)[1..] == digits;
  }

  lemma {:induction false} AtoiReads(token: string, k: nat, n: nat)
    requires n <= MAX_INT64 && WritesBehind(token, k, n)
    ensures Atoi(token) == Some(n)
  {
    hide Itoa, Digits, Atoi, AllDigits, Zeros;
    var digits := Zeros(k) + Itoa(n);
    DigitsBehindZeros(k, Itoa(n));
    DigitsOfItoa(n);
    AtoiOfDigits(digits);
    assert "+" + Zeros(k) + Itoa(n) == "+" + digits && "-" + Zeros(k) + Itoa(n) == "-" + digits;
  }

  /** The parts of a text that is read as a number. */
  lemma {:induction false} AtoiParts(token: string, n: nat) returns (digits: string)
    requires Atoi(token) == Some(n)
    ensures digits != "" && AllDigits(digits) && Digits(digits) == n
    ensures token == digits || token == "+" + digits || (n == 0 && token == "-" + digits)
  {
    hide Digits, AllDigits;
    digits := if token[0] == '-' || token[0] == '+' then token[1..] else token;
    assert token == [token[0]] + token[1..];
  }

  /** Which numbers a token stands for: exactly those it is a way to write. */
  lemma {:induction false} AtoiMeans(token: string, n: nat)
    requires n <= MAX_INT64
    ensures Atoi(token) == Some(n) <==> Writes(token, n)
  {
    hide Itoa, Digits, Atoi, AllDigits, Zeros;
    if Atoi(token) == Some(n) {
      var digits := AtoiParts(token, n);
      var k := DigitsAreItoa(digits);
      assert "+" + Zeros(k) + Itoa(n) == "+" + digits && "-" + Zeros(k) + Itoa(n) == "-" + digits;
      assert WritesBehind(token, k, n);
    }
    if Writes(token, n) {
      var k: nat :| WritesBehind(token, k, n);
      AtoiReads(token, k, n);
    }
  }

  // ------------------------------------------------------------ one page

  datatype Page = Page(entries: seq<VolumeAttributes>, next: string)

  function Start(token: string, n: nat): Result<nat> {
    if token == "" then Ok(0)
    else match Atoi(token)
      case None => Err(InvalidArgument)
      case Some(i) => if 0 <= i <= n then Ok(i) else Err(InvalidArgument)
  }

  /** `maxEntries` of zero or less asks for everything that is left. */
  function PageOf(sorted: seq<VolumeAttributes>, token: string, maxEntries: int): Result<Page> {
    match Start(token, |sorted|)
    case Err(code) => Err(code)
    case Ok(start) =>
      var count := if maxEntries <= 0 then |sorted| - start else maxEntries;
      var end := if start + count > |sorted| then |sorted| else start + count;
      Ok(Page(sorted[start..end], if end < |sorted| then Itoa(end) else ""))
  }

  predicate SortedById(s: seq<VolumeAttributes>) {
    forall i, j :: 0 <= i < j < |s| ==> StringLE(s[i].volumeId, s[j].volumeId)
  }

  /** Volumes with the same identifier are the same; unique identifiers are enough for that. */
  predicate IdsDetermine(s: seq<VolumeAttributes>) {
    forall i, j :: 0 <= i < j < |s| && s[i].volumeId == s[j].volumeId ==> s[i] == s[j]
  }

  /** Any result `sort.Slice` may give; it is not stable. */
  predicate IsSortOf(sorted: seq<VolumeAttributes>, s: seq<VolumeAttributes>) {
    SortedById(sorted) && multiset(sorted) == multiset(s)
  }

  method SortById(s: seq<VolumeAttributes>) returns (sorted: seq<VolumeAttributes>)
    ensures IsSortOf(sorted, s)
  {
    sorted := [];
    for i := 0 to |s|
      invariant IsSortOf(sorted, s[..i])
    {
      InsertSorts(sorted, s[i]);
      InsertAdds(sorted, s[i]);
      sorted := Insert(sorted, s[i]);
      assert s[..i + 1] == s[..i] + [s[i]];
    }
    assert s[..|s|] == s;
  }

  function Insert(s: seq<VolumeAttributes>, e: VolumeAttributes): seq<VolumeAttributes> {
    if s == [] || !StringLE(s[0].volumeId, e.volumeId) then [e] + s else [s[0]] + Insert(s[1..], e)
  }

  lemma {:induction false} InsertAdds(s: seq<VolumeAttributes>, e: VolumeAttributes)
    ensures multiset(Insert(s, e)) == multiset(s) + multiset{e}
  {
    hide StringLE;
    if s != [] && StringLE(s[0].volumeId, e.volumeId) {
      InsertAdds(s[1..], e);
      assert s == [s[0]] + s[1..];
    }
  }

  predicate NoneSmaller(id: string, s: seq<VolumeAttributes>) {
    forall i :: 0 <= i < |s| ==> StringLE(id, s[i].volumeId)
  }

  lemma {:induction false} SortedCons(e: VolumeAttributes, s: seq<VolumeAttributes>)
    requires SortedById(s) && NoneSmaller(e.volumeId, s)
    ensures SortedById([e] + s)
  {
    hide StringLE;
  }

  lemma {:induction false} InsertSorts(s: seq<VolumeAttributes>, e: VolumeAttributes)
    requires SortedById(s)
    ensures SortedById(Insert(s, e))
    ensures forall id :: NoneSmaller(id, s) && StringLE(id, e.volumeId) ==> NoneSmaller(id, Insert(s, e))
  {
    hide StringLE;
    StringOrder();
    if s != [] && StringLE(s[0].volumeId, e.volumeId) {
      InsertSorts(s[1..], e);
      SortedCons(s[0], Insert(s[1..], e));
    } else if s != [] {
      SortedCons(e, s);
    }
  }

  lemma {:induction false} CanSort(s: seq<VolumeAttributes>) returns (sorted: seq<VolumeAttributes>)
    ensures IsSortOf(sorted, s)
  {
    sorted := [];
    if s != [] {
      var n := |s| - 1;
      var rest := CanSort(s[..n]);
      InsertSorts(rest, s[n]);
      InsertAdds(rest, s[n]);
      sorted := Insert(rest, s[n]);
      assert s == s[..n] + [s[n]];
    }
  }

  /** The place a token asks to start from; none asks for the beginning. */
  ghost predicate StartsAt(token: string, n: nat) { if token == "" then n == 0 else Writes(token, n) }

  /** A page from `start`: at most `maxEntries` if that is positive, else all the rest; and a token if more is left. */
  predicate IsPage(page: Page, sorted: seq<VolumeAttributes>, start: nat, maxEntries: int) {
    && start + |page.entries| <= |sorted| && page.entries == sorted[start..start + |page.entries|]
    && (if maxEntries > 0 && maxEntries < |sorted| - start
        then |page.entries| == maxEntries && page.next == Itoa(start + maxEntries)
        else start + |page.entries| == |sorted| && page.next == "")
  }

  /** An answer to a request for a page of a sorted list; only a token that stands for no place in it is refused. */
  ghost predicate Answers(r: Result<Page>, sorted: seq<VolumeAttributes>, token: string, maxEntries: int) {
    match r
    case Ok(page) => exists n: nat :: n <= |sorted| && StartsAt(token, n) && IsPage(page, sorted, n, maxEntries)
    case Err(code) => code == InvalidArgument && forall n: nat :: n <= |sorted| ==> !StartsAt(token, n)
  }

  /** Every page, and every refusal. */
  lemma {:induction false} PageMeans(sorted: seq<VolumeAttributes>, token: string, maxEntries: int)
    requires |sorted| <= MAX_INT64
    ensures Answers(PageOf(sorted, token, maxEntries), sorted, token, maxEntries)
  {
    hide Itoa, Atoi;
    forall n: nat | n <= |sorted| ensures Start(token, |sorted|) == Ok(n) <==> StartsAt(token, n) {
      if token != "" {
        AtoiMeans(token, n);
      }
    }
    match PageOf(sorted, token, maxEntries) {
      case Ok(page) =>
        var n := Start(token, |sorted|).value;
        assert StartsAt(token, n) && IsPage(page, sorted, n, maxEntries);
      case Err(code) =>
    }
  }

  lemma {:induction false} NoMoreVolumes(pvs: seq<PersistentVolume>, driver: string)
    ensures |Volumes(pvs, driver)| <= |pvs|
  {
    if pvs != [] {
      NoMoreVolumes(pvs[..|pvs| - 1], driver);
    }
  }

  /** The volumes of the driver, sorted and cut to the requested page. */
  method ListVolumesPage(pvs: seq<PersistentVolume>, listed: bool, driver: string, token: string, maxEntries: int)
    returns (r: Result<Page>)
    ensures !listed ==> r == Err(Internal)
    ensures
      listed ==>
        exists sorted ::
          && IsSortOf(sorted, Volumes(pvs, driver)) && r == PageOf(sorted, token, maxEntries)
          && (|pvs| <= MAX_INT64 ==> Answers(r, sorted, token, maxEntries))
    ensures
      listed && token == "" && maxEntries <= 0 ==>
        r.Ok? && IsSortOf(r.value.entries, Volumes(pvs, driver)) && r.value.next == ""
  {
    if !listed {
      return Err(Internal);
    }
    var volumes := ListVolumes(pvs, driver);
    var sorted := SortById(volumes);
    SameLength(sorted, volumes);
    NoMoreVolumes(pvs, driver);
    if |pvs| <= MAX_INT64 {
      PageMeans(sorted, token, maxEntries);
    }
    assert sorted[0..|sorted|] == sorted;
    r := PageOf(sorted, token, maxEntries);
  }

  // ------------------------------------------------------------ all pages

  /** When identifiers determine volumes, a listing can be sorted in one way only, in whatever order it came. */
  lemma {:induction false} OneSortedOrder(a: seq<VolumeAttributes>, b: seq<VolumeAttributes>)
    requires SortedById(a) && SortedById(b) && multiset(a) == multiset(b) && IdsDetermine(a)
    ensures a == b
  {
    hide StringLE;
    SameLength(a, b);
    if a != [] {
      SameFirst(a, b);
      SameTails(a, b);
      OneSortedOrder(a[1..], b[1..]);
      assert a == [a[0]] + a[1..] && b == [b[0]] + b[1..];
    }
  }

  lemma {:induction false} SameTails(a: seq<VolumeAttributes>, b: seq<VolumeAttributes>)
    requires a != [] && b != [] && a[0] == b[0] && multiset(a) == multiset(b)
    ensures multiset(a[1..]) == multiset(b[1..])
  {
    assert a == [a[0]] + a[1..] && b == [b[0]] + b[1..];
    assert multiset(a[1..]) == multiset(a) - multiset{a[0]};
    assert multiset(b[1..]) == multiset(b) - multiset{b[0]};
  }

  lemma {:induction false} SameFirst(a: seq<VolumeAttributes>, b: seq<VolumeAttributes>)
    requires SortedById(a) && SortedById(b) && multiset(a) == multiset(b) && IdsDetermine(a) && a != [] && b != []
    ensures a[0] == b[0]
  {
    hide StringLE;
    assert a[0] in multiset(b) && b[0] in multiset(a);
    var i :| 0 <= i < |b| && b[i] == a[0];
    var j :| 0 <= j < |a| && a[j] == b[0];
    StringOrder();
    assert StringLE(a[0].volumeId, a[j].volumeId) && StringLE(b[0].volumeId, b[i].volumeId);
    assert a[0].volumeId == a[j].volumeId;
  }

  /** Call `k` sees its own, possibly differently ordered, listing and asks for its own page size. */
  ghost predicate Views(listing: seq<VolumeAttributes>, views: nat -> seq<VolumeAttributes>, sizes: nat -> int) {
    forall k :: IsSortOf(views(k), listing) && sizes(k) > 0
  }

  /** Following the tokens from call `k` on; every call makes progress, so this ends. */
  ghost function Follow(listing: seq<VolumeAttributes>, views: nat -> seq<VolumeAttributes>, sizes: nat -> int, k: nat,
                        start: nat): seq<VolumeAttributes>
    requires Views(listing, views, sizes) && start <= |listing| <= MAX_INT64
    decreases |listing| - start
  {
    SameLength(views(k), listing);
    var token := if start == 0 then "" else Itoa(start);
    TokenStart(start, |listing|);
    var page := PageOf(views(k), token, sizes(k)).value;
    if page.next == "" then page.entries
    else
      TokenRoundTrip(start + |page.entries|);
      page.entries + Follow(listing, views, sizes, k + 1, Atoi(page.next).value)
  }

  lemma {:induction false} SameLength(a: seq<VolumeAttributes>, b: seq<VolumeAttributes>)
    requires multiset(a) == multiset(b)
    ensures |a| == |b|
  {
    assert |multiset(a)| == |a| && |multiset(b)| == |b|;
  }

  lemma {:induction false} TokenStart(start: nat, n: nat)
    requires start <= n <= MAX_INT64
    ensures Start(if start == 0 then "" else Itoa(start), n) == Ok(start)
  {
    TokenRoundTrip(start);
  }

  /**
   Following the tokens from the start, with any positive page sizes and listings in any
   order, returns the whole sorted list, each volume once, if identifiers determine volumes.
   */
  lemma {:induction false} PagesAreComplete(listing: seq<VolumeAttributes>, views: nat -> seq<VolumeAttributes>,
                                            sizes: nat -> int, sorted: seq<VolumeAttributes>, k: nat, start: nat)
    requires Views(listing, views, sizes) && start <= |listing| <= MAX_INT64
    requires IsSortOf(sorted, listing) && IdsDetermine(sorted)
    ensures |sorted| == |listing| && Follow(listing, views, sizes, k, start) == sorted[start..]
    decreases |listing| - start
  {
    hide Itoa, Atoi, IsSortOf, IdsDetermine, PageOf;
    EveryViewIsTheSame(listing, views, sizes, sorted, k);
    PageAt(sorted, start, sizes(k));
    var end := if start + sizes(k) > |sorted| then |sorted| else start + sizes(k);
    if end < |sorted| {
      TokenRoundTrip(end);
      PagesAreComplete(listing, views, sizes, sorted, k + 1, end);
      assert sorted[start..] == sorted[start..end] + sorted[end..];
    }
  }

  lemma {:induction false} EveryViewIsTheSame(listing: seq<VolumeAttributes>, views: nat -> seq<VolumeAttributes>,
                                              sizes: nat -> int, sorted: seq<VolumeAttributes>, k: nat)
    requires Views(listing, views, sizes) && IsSortOf(sorted, listing) && IdsDetermine(sorted)
    ensures views(k) == sorted && sizes(k) > 0 && |sorted| == |listing|
  {
    hide StringLE, SortedById, IdsDetermine;
    SameLength(sorted, listing);
    assert IsSortOf(views(k), listing);
    OneSortedOrder(sorted, views(k));
  }

  lemma {:induction false} PageAt(sorted: seq<VolumeAttributes>, start: nat, size: int)
    requires start <= |sorted| <= MAX_INT64 && size > 0
    ensures
      var end := if start + size > |sorted| then |sorted| else start + size;
      && PageOf(sorted, if start == 0 then "" else Itoa(start), size) ==
           Ok(Page(sorted[start..end], if end < |sorted| then Itoa(end) else ""))
      && Itoa(end) != ""
  {
    hide Itoa, Atoi;
    TokenStart(start, |sorted|);
  }

  /**
   Whatever the listing, the pages always add up to it, for every way the calls may sort it
   and all page sizes, exactly if identifiers determine volumes.
   */
  lemma {:induction false} PagesAddUpExactly(listing: seq<VolumeAttributes>)
    requires |listing| <= MAX_INT64
    ensures
      IdsDetermine(listing) <==>
        forall views, sizes | Views(listing, views, sizes) ::
          multiset(Follow(listing, views, sizes, 0, 0)) == multiset(listing)
  {
    hide Follow, SortedById;
    var sorted := CanSort(listing);
    SameTwins(listing, sorted);
    if IdsDetermine(listing) {
      forall views, sizes | Views(listing, views, sizes)
        ensures multiset(Follow(listing, views, sizes, 0, 0)) == multiset(listing)
      {
        PagesAreComplete(listing, views, sizes, sorted, 0, 0);
        assert sorted[0..] == sorted;
      }
    } else {
      var views, sizes := TwinsCanHide(listing, sorted);
    }
  }

  lemma {:induction false} SameTwins(a: seq<VolumeAttributes>, b: seq<VolumeAttributes>)
    requires multiset(a) == multiset(b)
    ensures IdsDetermine(a) <==> IdsDetermine(b)
  {
    if !IdsDetermine(a) {
      TwinsCarryOver(a, b);
    }
    if !IdsDetermine(b) {
      TwinsCarryOver(b, a);
    }
  }

  lemma {:induction false} TwinsCarryOver(a: seq<VolumeAttributes>, b: seq<VolumeAttributes>)
    requires multiset(a) == multiset(b) && !IdsDetermine(a)
    ensures !IdsDetermine(b)
  {
    var i, j :| 0 <= i < j < |a| && a[i].volumeId == a[j].volumeId && a[i] != a[j];
    assert a[i] in multiset(b) && a[j] in multiset(b);
    var k :| 0 <= k < |b| && b[k] == a[i];
    var l :| 0 <= l < |b| && b[l] == a[j];
    assert k < l || l < k;
  }

  /** In a sorted list with twins, some twins are neighbours. */
  lemma {:induction false} NeighbouringTwins(s: seq<VolumeAttributes>, i: nat, j: nat) returns (m: nat)
    requires SortedById(s) && i < j < |s| && s[i].volumeId == s[j].volumeId && s[i] != s[j]
    ensures m + 1 < |s| && s[m].volumeId == s[m + 1].volumeId && s[m] != s[m + 1]
    decreases j - i
  {
    hide StringLE;
    StringOrder();
    m := i;
    if i + 1 < j {
      assert StringLE(s[i].volumeId, s[i + 1].volumeId) && StringLE(s[i + 1].volumeId, s[j].volumeId);
      if s[i] == s[i + 1] {
        m := NeighbouringTwins(s, i + 1, j);
      }
    }
  }

  /**
   Any listing with twins, different volumes under one identifier, has calls that lose one:
   the first page ends between them and the second call sorts them the other way round.
   */
  lemma {:induction false} TwinsCanHide(listing: seq<VolumeAttributes>, sorted: seq<VolumeAttributes>)
    returns (views: nat -> seq<VolumeAttributes>, sizes: nat -> int)
    requires |listing| <= MAX_INT64 && IsSortOf(sorted, listing) && !IdsDetermine(sorted)
    ensures Views(listing, views, sizes)
    ensures multiset(Follow(listing, views, sizes, 0, 0)) != multiset(listing)
  {
    hide Follow, SortedById, StringLE;
    SameLength(sorted, listing);
    var i, j :| 0 <= i < j < |sorted| && sorted[i].volumeId == sorted[j].volumeId && sorted[i] != sorted[j];
    var m := NeighbouringTwins(sorted, i, j);
    var swapped := Swapped(sorted, m);
    views := (k: nat) => if k == 0 then sorted else swapped;
    sizes := (k: nat) => if k == 0 then m + 1 else |sorted|;
    TwoPages(listing, views, sizes, m + 1);
    LostTwin(sorted, swapped, m);
  }

  lemma {:induction false} LostTwin(sorted: seq<VolumeAttributes>, swapped: seq<VolumeAttributes>, m: nat)
    requires m + 1 < |sorted| && sorted[m] != sorted[m + 1]
    requires swapped == sorted[m := sorted[m + 1]][m + 1 := sorted[m]]
    ensures multiset(sorted[..m + 1] + swapped[m + 1..]) != multiset(sorted)
  {
    hide *;
    var pages := sorted[..m + 1] + swapped[m + 1..];
    assert pages == sorted[m + 1 := sorted[m]];
    assert multiset(pages)[sorted[m]] == multiset(sorted)[sorted[m]] + 1;
  }

  lemma {:induction false} Swapped(sorted: seq<VolumeAttributes>, m: nat) returns (swapped: seq<VolumeAttributes>)
    requires SortedById(sorted) && m + 1 < |sorted| && sorted[m].volumeId == sorted[m + 1].volumeId
    ensures swapped == sorted[m := sorted[m + 1]][m + 1 := sorted[m]] && IsSortOf(swapped, sorted)
  {
    hide StringLE;
    swapped := sorted[m := sorted[m + 1]][m + 1 := sorted[m]];
    assert forall x :: 0 <= x < |sorted| ==> swapped[x].volumeId == sorted[x].volumeId;
  }

  lemma {:induction false} TwoPages(listing: seq<VolumeAttributes>, views: nat -> seq<VolumeAttributes>,
                                    sizes: nat -> int, n: nat)
    requires Views(listing, views, sizes) && 0 < n < |listing| <= MAX_INT64
    requires sizes(0) == n && sizes(1) == |listing|
    ensures |views(0)| == |views(1)| == |listing|
    ensures Follow(listing, views, sizes, 0, 0) == views(0)[..n] + views(1)[n..]
  {
    hide StringLE, PageOf, Itoa, Atoi, SortedById;
    SameLength(views(0), listing);
    SameLength(views(1), listing);
    PageAt(views(0), 0, n);
    PageAt(views(1), n, |listing|);
    TokenRoundTrip(n);
    assert Follow(listing, views, sizes, 1, n) == views(1)[n..|listing|];
  }
}
