/**
 * The order of work in `main` for one worker: normalise the two token lists,
 * print the estimates, then search. `Launch` keeps the program's order, in
 * which the estimator reads `suffixes[i]` for every prefix before
 * `searchAddress` compares the list lengths; `LaunchChecked` compares them
 * first, so a mismatch is always reported as one.
 */
module Launch {
  import opened Wrappers
  import opened Words
  import opened Flags
  import opened Matcher
  import opened Estimator
  import opened Search

  /** How `main` ends for one worker. */
  datatype LaunchOutcome =
    | InvalidToken(tokenError: WordError)
    | EstimatorPanic(estimatorError: EstimatorError)
    | Rejected(searchError: SearchError)
    | Searched(report: EstimateReport, outcome: SearchOutcome)

  /** Normalised tokens always fit in an address. */
  lemma NormalizedFit(prefixSet: bool, prefixes: seq<string>, suffixSet: bool, suffixes: seq<string>)
    requires Normalize(prefixSet, prefixes, suffixSet, suffixes).Success?
    ensures FitsWidth(Normalize(prefixSet, prefixes, suffixSet, suffixes).value.prefixes)
    ensures FitsWidth(Normalize(prefixSet, prefixes, suffixSet, suffixes).value.suffixes)
  {
    NormalizedTokensAreNormal(prefixSet, prefixes, suffixSet, suffixes);
  }

  /** The search step shared by both orders: a failed start becomes `Rejected`. */
  function SearchStep(report: EstimateReport, t: Tokens, candidates: seq<string>): LaunchOutcome
    requires FitsWidth(t.prefixes) && FitsWidth(t.suffixes) && AllAddresses(candidates)
  {
    var outcome := Search.Search(t.prefixes, t.suffixes, candidates);
    if outcome.Failed? then Rejected(outcome.error) else Searched(report, outcome)
  }

  /** `main` as written (lines 182-207), for one worker over the given candidates. */
  function Launch(prefixSet: bool, prefixes: seq<string>, suffixSet: bool, suffixes: seq<string>,
                  candidates: seq<string>): (r: LaunchOutcome)
    requires AllAddresses(candidates)
    ensures r.InvalidToken? <==> Normalize(prefixSet, prefixes, suffixSet, suffixes).Failure?
    ensures r.Searched? ==> r.outcome.Found? || r.outcome.Exhausted?
  {
    var n := Normalize(prefixSet, prefixes, suffixSet, suffixes);
    if n.Failure? then InvalidToken(n.error)
    else
      NormalizedFit(prefixSet, prefixes, suffixSet, suffixes);
      var e := Estimates(n.value.prefixes, n.value.suffixes);
      if e.Failure? then EstimatorPanic(e.error)
      else SearchStep(e.value, n.value, candidates)
  }

  /** `main` with the length comparison of `searchAddress` moved before the estimates. */
  function LaunchChecked(prefixSet: bool, prefixes: seq<string>, suffixSet: bool, suffixes: seq<string>,
                         candidates: seq<string>): (r: LaunchOutcome)
    requires AllAddresses(candidates)
    ensures !r.EstimatorPanic?
    ensures r.InvalidToken? <==> Normalize(prefixSet, prefixes, suffixSet, suffixes).Failure?
    ensures r.Searched? ==> r.outcome.Found? || r.outcome.Exhausted?
  {
    var n := Normalize(prefixSet, prefixes, suffixSet, suffixes);
    if n.Failure? then InvalidToken(n.error)
    else if |n.value.prefixes| != |n.value.suffixes| then
      Rejected(LengthMismatch(|n.value.prefixes|, |n.value.suffixes|))
    else
      NormalizedFit(prefixSet, prefixes, suffixSet, suffixes);
      var e := Estimates(n.value.prefixes, n.value.suffixes);
      SearchStep(e.value, n.value, candidates)
  }

  /**
   * As written, `-p 12,13 -s 89` stops in the estimator, reading the missing
   * second suffix, instead of reporting the length mismatch.
   */
  lemma ShortSuffixListPanicsInEstimator(candidates: seq<string>)
    requires AllAddresses(candidates)
    ensures Launch(true, ["12", "13"], true, ["89"], candidates) == EstimatorPanic(IndexOutOfRange(1))
    ensures LaunchChecked(true, ["12", "13"], true, ["89"], candidates) == Rejected(LengthMismatch(2, 1))
  {
    MismatchedListsNormalize();
    var t := Tokens(["12", "13"], ["89"]);
    assert Estimates(t.prefixes, t.suffixes) == Failure(IndexOutOfRange(1));
  }

  /** `-p 12,13 -s 89` passes validation unchanged. */
  lemma MismatchedListsNormalize()
    ensures Normalize(true, ["12", "13"], true, ["89"]) == Success(Tokens(["12", "13"], ["89"]))
  {
    ToLowerKeepsLowercase("12");
    ToLowerKeepsLowercase("13");
    ToLowerKeepsLowercase("89");
    var p, s := LowerAll(["12", "13"]), LowerAll(["89"]);
    assert p == ["12", "13"] && s == ["89"];
    assert MatchesHexPattern("12") && MatchesHexPattern("13") && MatchesHexPattern("89");
    assert FirstInvalid(p + s).None?;
  }

  /**
   * As written, every normalised pair of lists with fewer suffixes than
   * prefixes ends in the estimator's panic.
   */
  lemma LaunchPanicsOnShorterSuffixes(prefixSet: bool, prefixes: seq<string>, suffixSet: bool,
                                      suffixes: seq<string>, candidates: seq<string>)
    requires AllAddresses(candidates)
    requires Normalize(prefixSet, prefixes, suffixSet, suffixes).Success?
    ensures var t := Normalize(prefixSet, prefixes, suffixSet, suffixes).value;
            Launch(prefixSet, prefixes, suffixSet, suffixes, candidates).EstimatorPanic? <==>
              |t.suffixes| < |t.prefixes|
  {
  }

  /** With the check moved first, lists of different lengths are always reported as a mismatch. */
  lemma LaunchCheckedReportsMismatch(prefixSet: bool, prefixes: seq<string>, suffixSet: bool,
                                     suffixes: seq<string>, candidates: seq<string>)
    requires AllAddresses(candidates)
    requires Normalize(prefixSet, prefixes, suffixSet, suffixes).Success?
    ensures var t := Normalize(prefixSet, prefixes, suffixSet, suffixes).value;
            LaunchChecked(prefixSet, prefixes, suffixSet, suffixes, candidates) ==
              Rejected(LengthMismatch(|t.prefixes|, |t.suffixes|)) <==>
              |t.prefixes| != |t.suffixes|
  {
  }

  /** The correction changes nothing when the lists line up (or a token is rejected). */
  lemma LaunchCheckedAgreesOtherwise(prefixSet: bool, prefixes: seq<string>, suffixSet: bool,
                                     suffixes: seq<string>, candidates: seq<string>)
    requires AllAddresses(candidates)
    requires var n := Normalize(prefixSet, prefixes, suffixSet, suffixes);
             n.Failure? || |n.value.prefixes| == |n.value.suffixes|
    ensures LaunchChecked(prefixSet, prefixes, suffixSet, suffixes, candidates) ==
            Launch(prefixSet, prefixes, suffixSet, suffixes, candidates)
  {
  }

  /**
   * End to end: an address that the search reports starts with the lowered
   * i-th prefix token when prefixes were given and ends with the lowered i-th
   * suffix token when suffixes were given; no earlier candidate matched any pair.
   */
  lemma FoundAddressHonoursTokens(prefixSet: bool, prefixes: seq<string>, suffixSet: bool,
                                    suffixes: seq<string>, candidates: seq<string>)
    requires AllAddresses(candidates)
    requires LaunchChecked(prefixSet, prefixes, suffixSet, suffixes, candidates).Searched?
    requires LaunchChecked(prefixSet, prefixes, suffixSet, suffixes, candidates).outcome.Found?
    ensures var o := LaunchChecked(prefixSet, prefixes, suffixSet, suffixes, candidates).outcome;
            (prefixSet ==> o.pairIndex < |prefixes| && StartsWith(o.address, ToLower(prefixes[o.pairIndex]))) &&
            (suffixSet ==> o.pairIndex < |suffixes| && EndsWith(o.address, ToLower(suffixes[o.pairIndex]))) &&
            0 < o.attempts <= |candidates| && o.address == candidates[o.attempts - 1]
  {
    var t := Normalize(prefixSet, prefixes, suffixSet, suffixes).value;
    NormalizedFit(prefixSet, prefixes, suffixSet, suffixes);
    var o := Search.Search(t.prefixes, t.suffixes, candidates);
    SearchFoundSpec(t.prefixes, t.suffixes, candidates);
    assert o == LaunchChecked(prefixSet, prefixes, suffixSet, suffixes, candidates).outcome;
    var i := o.pairIndex;
    PairMatchesMeansStartsAndEnds(o.address, t.prefixes[i], t.suffixes[i]);
  }

  /** Neither list given: nothing to search for, reported before any attempt. */
  lemma NoTokensNoSearch(candidates: seq<string>)
    requires AllAddresses(candidates)
    ensures LaunchChecked(false, [], false, [], candidates) == Rejected(NoPairs)
    ensures Launch(false, [], false, [], candidates) == Rejected(NoPairs)
  {
    assert LowerAll([]) + LowerAll([]) == [];
  }
}
