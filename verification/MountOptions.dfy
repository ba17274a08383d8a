/** The options of the bind mount that publishes a volume. */
module MountOptions {
  import opened Results

  /** The first position of `x`, or the length if it does not occur. */
  function FirstIndex(s: seq<string>, x: string): (i: nat)
    ensures i <= |s| && (i < |s| <==> x in s) && (i < |s| ==> s[i] == x)
    ensures forall j :: 0 <= j < i ==> s[j] != x
  {
    if s == [] || s[0] == x then 0 else 1 + FirstIndex(s[1..], x)
  }

  function Fixed(readOnly: bool): seq<string> { if readOnly then ["bind", "ro"] else ["bind"] }

  /** The options after the first `k` flags have been looked at. */
  ghost predicate Built(readOnly: bool, flags: seq<string>, k: nat, options: seq<string>)
    requires k <= |flags|
  {
    && Fixed(readOnly) <= options
    && (forall i, j :: 0 <= i < j < |options| ==> options[i] != options[j])
    && (forall x :: x in options <==> x in Fixed(readOnly) || (x in flags[..k] && x != ""))
    && InOrder(flags, k, |Fixed(readOnly)|, options)
  }

  /** From place `from` on, options stand in the order of their first occurrence among the flags. */
  ghost predicate InOrder(flags: seq<string>, k: nat, from: nat, options: seq<string>) {
    && (forall i :: from <= i < |options| ==> FirstIndex(flags, options[i]) < k)
    && (forall i, j :: from <= i < j < |options| ==> FirstIndex(flags, options[i]) < FirstIndex(flags, options[j]))
  }

  lemma {:induction false} AddFlag(readOnly: bool, flags: seq<string>, k: nat, options: seq<string>)
    requires k < |flags| && Built(readOnly, flags, k, options) && flags[k] != "" && flags[k] !in options
    ensures Built(readOnly, flags, k + 1, options + [flags[k]])
  {
    hide FirstIndex;
    var f := flags[k];
    assert flags[..k + 1] == flags[..k] + [f];
    forall x ensures x in options + [f] <==> x in Fixed(readOnly) || (x in flags[..k + 1] && x != "") {
      assert x in options + [f] <==> x in options || x == f;
    }
    FirstSeenHere(flags, k);
  }

  lemma {:induction false} FirstSeenHere(flags: seq<string>, k: nat)
    requires k < |flags| && flags[k] !in flags[..k]
    ensures FirstIndex(flags, flags[k]) == k
  {
    hide FirstIndex;
    assert forall j :: 0 <= j < k ==> flags[j] in flags[..k];
  }

  lemma {:induction false} SkipFlag(readOnly: bool, flags: seq<string>, k: nat, options: seq<string>)
    requires k < |flags| && Built(readOnly, flags, k, options) && (flags[k] == "" || flags[k] in options)
    ensures Built(readOnly, flags, k + 1, options)
  {
    hide FirstIndex;
    assert flags[..k + 1] == flags[..k] + [flags[k]];
  }

  lemma {:induction false} StartBuilt(readOnly: bool, flags: seq<string>)
    ensures Built(readOnly, flags, 0, Fixed(readOnly))
  {
    assert "bind"[0] != "ro"[0];
  }

  /**
   An order-preserving deduplication: the fixed options come first, then every other
   non-empty flag once, in the order of first occurrence; nothing else is added.
   */
  method BuildMountOptions(readOnly: bool, mountFlags: Option<seq<string>>) returns (options: seq<string>)
    ensures Fixed(readOnly) <= options
    ensures options != [] && options[0] == "bind"
    ensures readOnly ==> |options| > 1 && options[1] == "ro"
    ensures !readOnly && "ro" in options ==> mountFlags.Some? && "ro" in mountFlags.value
    ensures forall i, j :: 0 <= i < j < |options| ==> options[i] != options[j]
    ensures
      var flags := if mountFlags.Some? then mountFlags.value else [];
      forall x :: x in options <==> x in Fixed(readOnly) || (x in flags && x != "")
    ensures
      var flags := if mountFlags.Some? then mountFlags.value else [];
      forall i, j :: |Fixed(readOnly)| <= i < j < |options| ==>
        FirstIndex(flags, options[i]) < FirstIndex(flags, options[j])
  {
    hide FirstIndex;
    options := ["bind"];
    var seen := {"bind"};
    if readOnly {
      options := options + ["ro"];
      seen := seen + {"ro"};
    }
    assert options == Fixed(readOnly);
    if mountFlags.None? {
      StartBuilt(readOnly, []);
      return;
    }
    var flags := mountFlags.value;
    StartBuilt(readOnly, flags);
    for k := 0 to |flags|
      invariant Built(readOnly, flags, k, options)
      invariant forall x :: x in seen <==> x in options
    {
      if flags[k] != "" && flags[k] !in seen {
        AddFlag(readOnly, flags, k, options);
        seen := seen + {flags[k]};
        options := options + [flags[k]];
      } else {
        SkipFlag(readOnly, flags, k, options);
      }
    }
    assert flags[..|flags|] == flags;
  }
}
