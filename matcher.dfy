/**
 * The match test of `searchAddress`: pair i matches an address when the
 * address starts with prefix i and ends with suffix i; pairs are tried in
 * list order and the first match wins.
 */
module Matcher {
  import opened Wrappers
  import opened Words

  /** Every token fits in an address, as `validateWord` guarantees. */
  predicate FitsWidth(words: seq<string>) {
    forall i :: 0 <= i < |words| ==> |words[i]| <= AddressWidth
  }

  /**
   * The comparison at line 139 with the per-pair slices of lines 128 and 131:
   * `address[:len(prefix)] == prefix && address[40-len(suffix):] == suffix`.
   */
  predicate PairMatches(address: string, prefix: string, suffix: string)
    requires |address| == AddressWidth && |prefix| <= AddressWidth && |suffix| <= AddressWidth
    ensures prefix == [] && suffix == [] ==> PairMatches(address, prefix, suffix)
  {
    address[..|prefix|] == prefix && address[AddressWidth - |suffix|..] == suffix
  }

  /** Reference reading of "starts with", character by character. */
  predicate StartsWith(address: string, prefix: string) {
    |prefix| <= |address| && forall i :: 0 <= i < |prefix| ==> address[i] == prefix[i]
  }

  /** Reference reading of "ends with", character by character. */
  predicate EndsWith(address: string, suffix: string) {
    |suffix| <= |address| &&
    forall i :: 0 <= i < |suffix| ==> address[|address| - |suffix| + i] == suffix[i]
  }

  /** The slice comparison means exactly "starts with the prefix and ends with the suffix". */
  lemma PairMatchesMeansStartsAndEnds(address: string, prefix: string, suffix: string)
    requires |address| == AddressWidth && |prefix| <= AddressWidth && |suffix| <= AddressWidth
    ensures PairMatches(address, prefix, suffix) <==> StartsWith(address, prefix) && EndsWith(address, suffix)
  {
    if StartsWith(address, prefix) && EndsWith(address, suffix) {
      assert address[..|prefix|] == prefix;
      var tail := address[AddressWidth - |suffix|..];
      assert |tail| == |suffix|;
      forall i | 0 <= i < |suffix| ensures tail[i] == suffix[i] {
        assert tail[i] == address[AddressWidth - |suffix| + i];
      }
      assert tail == suffix;
    }
    if PairMatches(address, prefix, suffix) {
      forall i | 0 <= i < |suffix| ensures address[|address| - |suffix| + i] == suffix[i] {
        assert address[AddressWidth - |suffix|..][i] == suffix[i];
      }
    }
  }

  /** An empty side constrains nothing: ("", s) tests only the suffix, (p, "") only the prefix. */
  lemma EmptySideAlwaysMatches(address: string, prefix: string, suffix: string)
    requires |address| == AddressWidth && |prefix| <= AddressWidth && |suffix| <= AddressWidth
    ensures PairMatches(address, "", suffix) <==> EndsWith(address, suffix)
    ensures PairMatches(address, prefix, "") <==> StartsWith(address, prefix)
    ensures PairMatches(address, "", "")
  {
    PairMatchesMeansStartsAndEnds(address, "", suffix);
    PairMatchesMeansStartsAndEnds(address, prefix, "");
  }

  /** The pair ("", "ab") matches any address ending in "ab", whatever its first 38 nibbles. */
  lemma EmptyPrefixExample(head: string)
    requires |head| == AddressWidth - 2
    ensures PairMatches(head + "ab", "", "ab")
  {
    assert (head + "ab")[AddressWidth - 2..] == "ab";
  }

  /**
   * The scan at lines 126-144 as a reference definition: the lowest index
   * at or after `from` whose pair matches, or None.
   */
  function FirstMatchFrom(address: string, prefix: seq<string>, suffix: seq<string>, from: nat): (r: Option<nat>)
    requires |address| == AddressWidth && |prefix| == |suffix| && from <= |prefix|
    requires FitsWidth(prefix) && FitsWidth(suffix)
    ensures r.Some? ==> from <= r.value < |prefix|
    decreases |prefix| - from
  {
    if from == |prefix| then None
    else if PairMatches(address, prefix[from], suffix[from]) then Some(from)
    else FirstMatchFrom(address, prefix, suffix, from + 1)
  }

  /**
   * The scan finds a pair that matches, with no matching pair before it,
   * and finds nothing exactly when no pair from `from` on matches.
   */
  lemma {:induction false} FirstMatchFromSpec(address: string, prefix: seq<string>, suffix: seq<string>, from: nat)
    requires |address| == AddressWidth && |prefix| == |suffix| && from <= |prefix|
    requires FitsWidth(prefix) && FitsWidth(suffix)
    ensures var r := FirstMatchFrom(address, prefix, suffix, from);
            r.Some? ==> PairMatches(address, prefix[r.value], suffix[r.value]) &&
                        forall j :: from <= j < r.value ==> !PairMatches(address, prefix[j], suffix[j])
    ensures FirstMatchFrom(address, prefix, suffix, from).None? <==>
              forall j :: from <= j < |prefix| ==> !PairMatches(address, prefix[j], suffix[j])
    decreases |prefix| - from
  {
    if from < |prefix| && !PairMatches(address, prefix[from], suffix[from]) {
      FirstMatchFromSpec(address, prefix, suffix, from + 1);
    }
  }

  /** Some pair matches exactly when the scan from the start finds one. */
  lemma FirstMatchFindsAnyMatch(address: string, prefix: seq<string>, suffix: seq<string>, i: nat)
    requires |address| == AddressWidth && |prefix| == |suffix| && i < |prefix|
    requires FitsWidth(prefix) && FitsWidth(suffix)
    requires PairMatches(address, prefix[i], suffix[i])
    ensures FirstMatchFrom(address, prefix, suffix, 0).Some?
    ensures FirstMatchFrom(address, prefix, suffix, 0).value <= i
  {
    FirstMatchFromSpec(address, prefix, suffix, 0);
  }
}
