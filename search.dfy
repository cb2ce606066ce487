/**
 * `searchAddress`: check the two lists, record every token's length and
 * whether all prefixes (all suffixes) share one length, then test candidate
 * addresses one after another until one matches some pair.
 *
 * The key generator is not modelled: the candidates it would produce are
 * given as a sequence, and running out of them ends the search with
 * `Exhausted`.
 */
module Search {
  import opened Wrappers
  import opened Words
  import opened Matcher

  /** Why `searchAddress` cannot start: it exits on a length mismatch and indexes element 0. */
  datatype SearchError = LengthMismatch(prefixCount: nat, suffixCount: nat) | NoPairs

  /** How a search ends: the matching address with the pair it matched and the attempt count. */
  datatype SearchOutcome =
    | Found(address: string, pairIndex: nat, attempts: nat)
    | Exhausted(attempts: nat)
    | Failed(error: SearchError)

  /** Every candidate is a 40-nibble address, as the hex encoding of 20 bytes is. */
  predicate AllAddresses(candidates: seq<string>) {
    forall k :: 0 <= k < |candidates| ==> |candidates[k]| == AddressWidth
  }

  /** Reference definition of the attempt loop from candidate k on. */
  function SearchFrom(prefix: seq<string>, suffix: seq<string>, candidates: seq<string>, k: nat)
    : (r: SearchOutcome)
    requires |prefix| == |suffix| && FitsWidth(prefix) && FitsWidth(suffix)
    requires AllAddresses(candidates) && k <= |candidates|
    ensures !r.Failed?
    decreases |candidates| - k
  {
    if k == |candidates| then Exhausted(k)
    else
      var first := FirstMatchFrom(candidates[k], prefix, suffix, 0);
      if first.Some? then Found(candidates[k], first.value, k + 1)
      else SearchFrom(prefix, suffix, candidates, k + 1)
  }

  /**
   * A search from candidate k that finds an address returns the first later
   * candidate that matches some pair, with its first matching pair and the
   * attempt count.
   */
  lemma {:induction false} SearchFromFound(prefix: seq<string>, suffix: seq<string>, candidates: seq<string>, k: nat)
    requires |prefix| == |suffix| && FitsWidth(prefix) && FitsWidth(suffix)
    requires AllAddresses(candidates) && k <= |candidates|
    requires SearchFrom(prefix, suffix, candidates, k).Found?
    ensures var r := SearchFrom(prefix, suffix, candidates, k);
            k < r.attempts <= |candidates| && r.address == candidates[r.attempts - 1] &&
            FirstMatchFrom(r.address, prefix, suffix, 0) == Some(r.pairIndex) &&
            forall m :: k <= m < r.attempts - 1 ==> FirstMatchFrom(candidates[m], prefix, suffix, 0).None?
    decreases |candidates| - k
  {
    if FirstMatchFrom(candidates[k], prefix, suffix, 0).None? {
      SearchFromFound(prefix, suffix, candidates, k + 1);
    }
  }

  /** A search from candidate k runs out exactly when no later candidate matches any pair. */
  lemma {:induction false} SearchFromExhausted(prefix: seq<string>, suffix: seq<string>, candidates: seq<string>, k: nat)
    requires |prefix| == |suffix| && FitsWidth(prefix) && FitsWidth(suffix)
    requires AllAddresses(candidates) && k <= |candidates|
    ensures var r := SearchFrom(prefix, suffix, candidates, k);
            r.Exhausted? ==> r.attempts == |candidates|
    ensures SearchFrom(prefix, suffix, candidates, k).Exhausted? <==>
              forall m :: k <= m < |candidates| ==> FirstMatchFrom(candidates[m], prefix, suffix, 0).None?
    decreases |candidates| - k
  {
    if k < |candidates| && FirstMatchFrom(candidates[k], prefix, suffix, 0).None? {
      SearchFromExhausted(prefix, suffix, candidates, k + 1);
    }
  }

  /**
   * What `searchAddress` computes: an error for lists of different lengths
   * or for no pairs at all, otherwise the attempt loop from the first candidate.
   */
  function Search(prefix: seq<string>, suffix: seq<string>, candidates: seq<string>): (r: SearchOutcome)
    requires FitsWidth(prefix) && FitsWidth(suffix) && AllAddresses(candidates)
    ensures r == Failed(LengthMismatch(|prefix|, |suffix|)) <==> |prefix| != |suffix|
    ensures r == Failed(NoPairs) <==> |prefix| == |suffix| == 0
  {
    if |prefix| != |suffix| then Failed(LengthMismatch(|prefix|, |suffix|))
    else if |prefix| == 0 then Failed(NoPairs)
    else SearchFrom(prefix, suffix, candidates, 0)
  }

  /**
   * A found address is the candidate of its attempt, matches its pair and no
   * lower pair, and no earlier candidate matched any pair.
   */
  lemma SearchFoundSpec(prefix: seq<string>, suffix: seq<string>, candidates: seq<string>)
    requires FitsWidth(prefix) && FitsWidth(suffix) && AllAddresses(candidates)
    requires Search(prefix, suffix, candidates).Found?
    ensures var r := Search(prefix, suffix, candidates);
            var a, i := r.address, r.pairIndex;
            0 < r.attempts <= |candidates| && a == candidates[r.attempts - 1] &&
            i < |prefix| == |suffix| && PairMatches(a, prefix[i], suffix[i]) &&
            (forall j :: 0 <= j < i ==> !PairMatches(a, prefix[j], suffix[j])) &&
            forall m, j :: 0 <= m < r.attempts - 1 && 0 <= j < |prefix| ==>
              !PairMatches(candidates[m], prefix[j], suffix[j])
  {
    var r := SearchFrom(prefix, suffix, candidates, 0);
    SearchFromFound(prefix, suffix, candidates, 0);
    FirstMatchFromSpec(r.address, prefix, suffix, 0);
    forall m | 0 <= m < r.attempts - 1 {
      FirstMatchFromSpec(candidates[m], prefix, suffix, 0);
    }
  }

  /** The search runs out exactly when no candidate matches any pair. */
  lemma SearchExhaustedSpec(prefix: seq<string>, suffix: seq<string>, candidates: seq<string>)
    requires FitsWidth(prefix) && FitsWidth(suffix) && AllAddresses(candidates)
    ensures Search(prefix, suffix, candidates).Exhausted? <==>
              0 < |prefix| == |suffix| &&
              forall m, j :: 0 <= m < |candidates| && 0 <= j < |prefix| ==>
                !PairMatches(candidates[m], prefix[j], suffix[j])
  {
    if 0 < |prefix| == |suffix| {
      forall m | 0 <= m < |candidates| {
        FirstMatchFromSpec(candidates[m], prefix, suffix, 0);
      }
      SearchFromExhausted(prefix, suffix, candidates, 0);
    }
  }

  /**
   * Lines 85-94 (and 96-106 for the suffixes): the length of every token,
   * and whether every length equals that of token 0.
   */
  method FillLengths(words: seq<string>) returns (lengths: array<nat>, allSame: bool)
    requires |words| > 0
    ensures lengths.Length == |words|
    ensures forall i :: 0 <= i < |words| ==> lengths[i] == |words[i]|
    ensures allSame <==> forall i :: 0 <= i < |words| ==> |words[i]| == |words[0]|
  {
    lengths := new nat[|words|];
    allSame := true;
    var common := |words[0]|;
    for i := 0 to lengths.Length
      invariant forall j :: 0 <= j < i ==> lengths[j] == |words[j]|
      invariant allSame <==> forall j :: 0 <= j < i ==> |words[j]| == common
    {
      lengths[i] := |words[i]|;
      if lengths[i] != common {
        allSame := false;
      }
    }
  }

  /**
   * Lines 118-144: one attempt's scan over the pairs. When all prefixes (all
   * suffixes) share one length the address is sliced once before the scan,
   * otherwise once per pair; either way the result is the first matching pair.
   */
  method ScanPairs(
    address: string, prefix: seq<string>, suffix: seq<string>,
    prefixLengths: array<nat>, suffixLengths: array<nat>,
    allPrefixesHaveSameLengths: bool, commonPrefixLength: nat,
    allSuffixesHaveSameLengths: bool, commonSuffixLength: nat)
    returns (found: bool, index: nat)
    requires |address| == AddressWidth && FitsWidth(prefix) && FitsWidth(suffix)
    requires |prefix| == |suffix| == prefixLengths.Length == suffixLengths.Length
    requires forall i :: 0 <= i < |prefix| ==> prefixLengths[i] == |prefix[i]|
    requires forall i :: 0 <= i < |suffix| ==> suffixLengths[i] == |suffix[i]|
    requires commonPrefixLength <= AddressWidth && commonSuffixLength <= AddressWidth
    requires allPrefixesHaveSameLengths ==>
               forall i :: 0 <= i < |prefix| ==> prefixLengths[i] == commonPrefixLength
    requires allSuffixesHaveSameLengths ==>
               forall i :: 0 <= i < |suffix| ==> suffixLengths[i] == commonSuffixLength
    ensures (if found then Some(index) else None) == FirstMatchFrom(address, prefix, suffix, 0)
  {
    var n := |prefix|;
    var addressPrefix: string := "";
    var addressSuffix: string := "";
    if allPrefixesHaveSameLengths {
      addressPrefix := address[..commonPrefixLength];
    }
    if allSuffixesHaveSameLengths {
      addressSuffix := address[AddressWidth - commonSuffixLength..];
    }
    found, index := false, 0;
    var i := 0;
    while i < n
      invariant 0 <= i <= n
      invariant FirstMatchFrom(address, prefix, suffix, 0) == FirstMatchFrom(address, prefix, suffix, i)
      invariant allPrefixesHaveSameLengths ==> addressPrefix == address[..commonPrefixLength]
      invariant allSuffixesHaveSameLengths ==> addressSuffix == address[AddressWidth - commonSuffixLength..]
    {
      if !allPrefixesHaveSameLengths {
        addressPrefix := address[..prefixLengths[i]];
      }
      if !allSuffixesHaveSameLengths {
        addressSuffix := address[AddressWidth - suffixLengths[i]..];
      }
      if addressPrefix == prefix[i] && addressSuffix == suffix[i] {
        found, index := true, i;
        break;
      }
      i := i + 1;
    }
  }

  /** `searchAddress` over the given candidates. */
  method SearchAddress(prefix: seq<string>, suffix: seq<string>, candidates: seq<string>)
    returns (r: SearchOutcome)
    requires FitsWidth(prefix) && FitsWidth(suffix) && AllAddresses(candidates)
    ensures r == Search(prefix, suffix, candidates)
  {
    var n := |prefix|;
    if |prefix| != |suffix| {
      return Failed(LengthMismatch(|prefix|, |suffix|));
    }
    if n == 0 {
      return Failed(NoPairs);
    }

    var prefixLengths, allPrefixesHaveSameLengths := FillLengths(prefix);
    var commonPrefixLength := |prefix[0]|;
    var suffixLengths, allSuffixesHaveSameLengths := FillLengths(suffix);
    var commonSuffixLength := |suffix[0]|;

    var found := false;
    var address: string := "";
    var index: nat := 0;
    var count := 0;
    while !found && count < |candidates|
      invariant 0 <= count <= |candidates|
      invariant forall i :: 0 <= i < n ==> prefixLengths[i] == |prefix[i]| && suffixLengths[i] == |suffix[i]|
      invariant !found ==> Search(prefix, suffix, candidates) == SearchFrom(prefix, suffix, candidates, count)
      invariant found ==> Search(prefix, suffix, candidates) == Found(address, index, count)
      decreases |candidates| - count
    {
      count := count + 1;
      address := candidates[count - 1];
      found, index := ScanPairs(address, prefix, suffix, prefixLengths, suffixLengths,
                                allPrefixesHaveSameLengths, commonPrefixLength,
                                allSuffixesHaveSameLengths, commonSuffixLength);
    }
    if found {
      r := Found(address, index, count);
    } else {
      r := Exhausted(count);
    }
  }
}
