/**
 * Normalisation of the `-p` and `-s` token lists in `main`: every token is
 * lowered in place and validated, in list order, prefixes first; then a list
 * that was not supplied is replaced by as many empty strings as the other.
 */
module Flags {
  import opened Wrappers
  import opened Words

  /** `make([]string, n)`: n empty strings. */
  function Blanks(n: nat): (r: seq<string>)
    ensures |r| == n && forall i :: 0 <= i < n ==> r[i] == ""
  {
    seq(n, _ => "")
  }

  /** Every token lowered, order kept. */
  function LowerAll(words: seq<string>): (r: seq<string>)
    ensures |r| == |words| && forall i :: 0 <= i < |words| ==> r[i] == ToLower(words[i])
  {
    if words == [] then [] else [ToLower(words[0])] + LowerAll(words[1..])
  }

  /** The error of the first word, in list order, that `validateWord` rejects. */
  function FirstInvalid(words: seq<string>): (r: Option<WordError>)
    ensures r.None? <==> forall i :: 0 <= i < |words| ==> ValidateWord(words[i]).None?
    ensures r.Some? ==>
              exists i :: 0 <= i < |words| && ValidateWord(words[i]) == r &&
                          forall j :: 0 <= j < i ==> ValidateWord(words[j]).None?
  {
    if words == [] then None
    else if ValidateWord(words[0]).Some? then ValidateWord(words[0])
    else FirstInvalid(words[1..])
  }

  /** Scanning two lists one after the other finds the first list's error first. */
  lemma {:induction false} FirstInvalidAppend(a: seq<string>, b: seq<string>)
    ensures FirstInvalid(a + b) == if FirstInvalid(a).Some? then FirstInvalid(a) else FirstInvalid(b)
  {
    if a != [] {
      assert (a + b)[0] == a[0];
      assert (a + b)[1..] == a[1..] + b;
      FirstInvalidAppend(a[1..], b);
    } else {
      assert a + b == b;
    }
  }

  /** The two token lists after normalisation, index-aligned by position. */
  datatype Tokens = Tokens(prefixes: seq<string>, suffixes: seq<string>)

  /**
   * What `main` does to the two flags before it searches: lower and validate
   * every token (the first rejected token ends the program), then fill a
   * missing side with empty strings.
   */
  function Normalize(prefixSet: bool, prefixes: seq<string>, suffixSet: bool, suffixes: seq<string>)
    : (r: Result<Tokens, WordError>)
    ensures r.Success? && prefixSet ==> r.value.prefixes == LowerAll(prefixes)
    ensures r.Success? && suffixSet ==> r.value.suffixes == LowerAll(suffixes)
    ensures r.Success? && prefixSet != suffixSet ==> |r.value.prefixes| == |r.value.suffixes|
  {
    var p := LowerAll(prefixes);
    var s := LowerAll(suffixes);
    match FirstInvalid(p + s)
    case Some(e) => Failure(e)
    case None =>
      var s' := if prefixSet && !suffixSet then Blanks(|p|) else s;
      var p' := if suffixSet && !prefixSet then Blanks(|s'|) else p;
      Success(Tokens(p', s'))
  }

  /** Normalisation fails exactly when some supplied token is rejected. */
  lemma {:induction false} NormalizeFailsIffSomeTokenInvalid(
    prefixSet: bool, prefixes: seq<string>, suffixSet: bool, suffixes: seq<string>)
    ensures Normalize(prefixSet, prefixes, suffixSet, suffixes).Failure? <==>
              (exists i :: 0 <= i < |prefixes| && !TokenAccepted(prefixes[i])) ||
              (exists i :: 0 <= i < |suffixes| && !TokenAccepted(suffixes[i]))
  {
    var p, s := LowerAll(prefixes), LowerAll(suffixes);
    FirstInvalidAppend(p, s);
    forall i | 0 <= i < |prefixes| ensures ValidateWord(p[i]).None? <==> TokenAccepted(prefixes[i]) {
      LoweredTokenAccepted(prefixes[i]);
    }
    forall i | 0 <= i < |suffixes| ensures ValidateWord(s[i]).None? <==> TokenAccepted(suffixes[i]) {
      LoweredTokenAccepted(suffixes[i]);
    }
  }

  /** The reported error is the first bad prefix, or, when every prefix is good, the first bad suffix. */
  lemma NormalizeReportsPrefixesFirst(
    prefixSet: bool, prefixes: seq<string>, suffixSet: bool, suffixes: seq<string>)
    requires Normalize(prefixSet, prefixes, suffixSet, suffixes).Failure?
    ensures Normalize(prefixSet, prefixes, suffixSet, suffixes).error ==
              if FirstInvalid(LowerAll(prefixes)).Some? then FirstInvalid(LowerAll(prefixes)).value
              else FirstInvalid(LowerAll(suffixes)).value
  {
    FirstInvalidAppend(LowerAll(prefixes), LowerAll(suffixes));
  }

  /** A token as the matcher sees it: empty (a filled side) or a valid lowercase word. */
  predicate NormalToken(word: string) {
    word == [] || ValidateWord(word).None?
  }

  /** After normalisation every token is empty or lowercase hex of at most 40 nibbles. */
  lemma NormalizedTokensAreNormal(
    prefixSet: bool, prefixes: seq<string>, suffixSet: bool, suffixes: seq<string>)
    requires Normalize(prefixSet, prefixes, suffixSet, suffixes).Success?
    ensures var t := Normalize(prefixSet, prefixes, suffixSet, suffixes).value;
            (forall i :: 0 <= i < |t.prefixes| ==> NormalToken(t.prefixes[i]) && |t.prefixes[i]| <= AddressWidth) &&
            (forall i :: 0 <= i < |t.suffixes| ==> NormalToken(t.suffixes[i]) && |t.suffixes[i]| <= AddressWidth)
  {
    var p, s := LowerAll(prefixes), LowerAll(suffixes);
    forall i | 0 <= i < |p| ensures ValidateWord(p[i]).None? {
      assert (p + s)[i] == p[i];
    }
    forall i | 0 <= i < |s| ensures ValidateWord(s[i]).None? {
      assert (p + s)[|p| + i] == s[i];
    }
  }

  /** Only prefixes supplied: they are kept (lowered) and the suffixes become empty strings. */
  lemma OnlyPrefixesSupplied(prefixes: seq<string>, suffixes: seq<string>)
    requires Normalize(true, prefixes, false, suffixes).Success?
    ensures Normalize(true, prefixes, false, suffixes).value ==
              Tokens(LowerAll(prefixes), Blanks(|prefixes|))
  {
  }

  /** Only suffixes supplied: they are kept (lowered) and the prefixes become empty strings. */
  lemma OnlySuffixesSupplied(prefixes: seq<string>, suffixes: seq<string>)
    requires Normalize(false, prefixes, true, suffixes).Success?
    ensures Normalize(false, prefixes, true, suffixes).value ==
              Tokens(Blanks(|suffixes|), LowerAll(suffixes))
  {
  }

  /** Case does not matter: normalising the lowered lists gives the same outcome. */
  lemma {:induction false} NormalizeIgnoresCase(
    prefixSet: bool, prefixes: seq<string>, suffixSet: bool, suffixes: seq<string>)
    ensures Normalize(prefixSet, LowerAll(prefixes), suffixSet, LowerAll(suffixes)) ==
            Normalize(prefixSet, prefixes, suffixSet, suffixes)
  {
    LowerAllIdempotent(prefixes);
    LowerAllIdempotent(suffixes);
  }

  lemma {:induction false} LowerAllIdempotent(words: seq<string>)
    ensures LowerAll(LowerAll(words)) == LowerAll(words)
  {
    forall i | 0 <= i < |words| ensures LowerAll(LowerAll(words))[i] == LowerAll(words)[i] {
      ToLowerIdempotent(words[i]);
    }
  }

  /** `-p ab` alone gives the single pair ("ab", ""). */
  lemma OnlyPrefixExample()
    ensures Normalize(true, ["ab"], false, []) == Success(Tokens(["ab"], [""]))
  {
    assert ToLower("ab") == "ab";
    assert LowerAll(["ab"]) == ["ab"];
    assert ["ab"] + LowerAll([]) == ["ab"];
    assert MatchesHexPattern("ab");
    assert Blanks(1) == [""];
  }

  /** `-p AB12` and `-p ab12` give the same pairs. */
  lemma CaseInsensitiveExample()
    ensures Normalize(true, ["AB12"], false, []) == Normalize(true, ["ab12"], false, [])
  {
    assert ToLower("AB12") == "ab12" == ToLower("ab12");
    assert LowerAll(["AB12"]) == ["ab12"] == LowerAll(["ab12"]);
  }

  /** `-p xy` stops the program: "xy" is not hex. */
  lemma NotHexExample()
    ensures Normalize(true, ["xy"], false, []) == Failure(NotHex("xy"))
  {
    assert ToLower("xy") == "xy";
    assert LowerAll(["xy"]) + LowerAll([]) == ["xy"];
    assert !IsHexNibble("xy"[0]);
  }

  /** A command-line list flag: whether it was given, and its tokens. */
  class StringsFlag {
    var isSet: bool
    var value: seq<string>

    constructor (isSet: bool, value: seq<string>)
      ensures this.isSet == isSet && this.value == value
    {
      this.isSet := isSet;
      this.value := value;
    }
  }

  /**
   * One of the two loops at the top of `main`: lower each token in place and
   * validate it; the first rejected token ends the loop with its error.
   */
  method LowerAndValidate(flag: StringsFlag) returns (err: Option<WordError>)
    modifies flag
    ensures flag.isSet == old(flag.isSet)
    ensures err == FirstInvalid(LowerAll(old(flag.value)))
    ensures err.None? ==> flag.value == LowerAll(old(flag.value))
  {
    ghost var lowered := LowerAll(flag.value);
    ghost var raw := flag.value;
    var i := 0;
    while i < |flag.value|
      invariant |flag.value| == |raw| && 0 <= i <= |raw|
      invariant forall j :: 0 <= j < i ==> flag.value[j] == lowered[j] && ValidateWord(lowered[j]).None?
      invariant forall j :: i <= j < |raw| ==> flag.value[j] == raw[j]
      invariant flag.isSet == old(flag.isSet)
    {
      var word := ToLower(flag.value[i]);
      assert word == lowered[i];
      flag.value := flag.value[i := word];
      err := ValidateWord(word);
      if err.Some? {
        FirstInvalidAt(lowered, i);
        return;
      }
      i := i + 1;
    }
    assert flag.value == lowered;
    err := None;
  }

  /** The error found at position i is the first one when every earlier word is valid. */
  lemma {:induction false} FirstInvalidAt(words: seq<string>, i: nat)
    requires i < |words| && ValidateWord(words[i]).Some?
    requires forall j :: 0 <= j < i ==> ValidateWord(words[j]).None?
    ensures FirstInvalid(words) == ValidateWord(words[i])
  {
    if i > 0 {
      assert ValidateWord(words[0]).None?;
      FirstInvalidAt(words[1..], i - 1);
    }
  }

  /** Lines 182-197 of `main`: both lowering loops, then the one-sided fill. */
  method NormalizeFlags(prefixes: StringsFlag, suffixes: StringsFlag) returns (err: Option<WordError>)
    requires prefixes != suffixes
    modifies prefixes, suffixes
    ensures prefixes.isSet == old(prefixes.isSet) && suffixes.isSet == old(suffixes.isSet)
    ensures var n := Normalize(old(prefixes.isSet), old(prefixes.value), old(suffixes.isSet), old(suffixes.value));
            if n.Failure? then err == Some(n.error)
            else err.None? && prefixes.value == n.value.prefixes && suffixes.value == n.value.suffixes
  {
    FirstInvalidAppend(LowerAll(prefixes.value), LowerAll(suffixes.value));
    err := LowerAndValidate(prefixes);
    if err.Some? {
      return;
    }
    err := LowerAndValidate(suffixes);
    if err.Some? {
      return;
    }
    if prefixes.isSet && !suffixes.isSet {
      suffixes.value := Blanks(|prefixes.value|);
    }
    if suffixes.isSet && !prefixes.isSet {
      prefixes.value := Blanks(|suffixes.value|);
    }
  }
}
