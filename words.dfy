/**
 * Token validation and case folding: `validateWord` and the
 * `strings.ToLower` call that precedes it for every command-line token.
 */
module Words {
  import opened Wrappers

  /** Width of an address in hex nibbles: 20 bytes. */
  const AddressWidth: nat := 40

  /** One character of the class `[0-9a-f]`. */
  predicate IsHexNibble(c: char) {
    '0' <= c <= '9' || 'a' <= c <= 'f'
  }

  /** One hex nibble in either case: `[0-9a-fA-F]`. */
  predicate IsHexNibbleAnyCase(c: char) {
    IsHexNibble(c) || 'A' <= c <= 'F'
  }

  /** The whole word matches `^[0-9a-f]+$`: one or more lowercase nibbles. */
  predicate MatchesHexPattern(word: string) {
    |word| > 0 && forall i :: 0 <= i < |word| ==> IsHexNibble(word[i])
  }

  /** Why `validateWord` exits the program. */
  datatype WordError = NotHex(word: string) | TooLong(word: string)

  /**
   * `validateWord`: the pattern test comes first, so a long word that is not
   * hex is reported as not hex; `None` means the word is accepted.
   */
  function ValidateWord(word: string): (r: Option<WordError>)
    ensures r.None? <==>
              word != [] && |word| <= AddressWidth && forall c :: c in word ==> IsHexNibble(c)
    ensures r.Some? ==> r.value.word == word
    ensures r.Some? && r.value.TooLong? ==> |word| > AddressWidth
    ensures r.Some? && r.value.NotHex? ==> word == [] || exists c :: c in word && !IsHexNibble(c)
    ensures !MatchesHexPattern(word) ==> r == Some(NotHex(word))
  {
    if !MatchesHexPattern(word) then Some(NotHex(word))
    else if |word| > AddressWidth then Some(TooLong(word))
    else None
  }

  /** `unicode.ToLower` restricted to ASCII letters. */
  function LowerChar(c: char): char {
    if 'A' <= c <= 'Z' then (c as int + 32) as char else c
  }

  /** `strings.ToLower`, one character at a time. */
  function ToLower(s: string): (r: string)
    ensures |r| == |s|
    ensures forall i :: 0 <= i < |s| ==> r[i] == LowerChar(s[i])
  {
    if s == [] then [] else [LowerChar(s[0])] + ToLower(s[1..])
  }

  /** A raw command-line token that is accepted once lowered: 1 to 40 nibbles of either case. */
  predicate TokenAccepted(word: string) {
    0 < |word| <= AddressWidth && forall i :: 0 <= i < |word| ==> IsHexNibbleAnyCase(word[i])
  }

  /** Lowering twice is lowering once. */
  lemma ToLowerIdempotent(s: string)
    ensures ToLower(ToLower(s)) == ToLower(s)
  {
  }

  /** A word with no uppercase ASCII letter is unchanged by lowering. */
  lemma ToLowerKeepsLowercase(s: string)
    requires forall i :: 0 <= i < |s| ==> !('A' <= s[i] <= 'Z')
    ensures ToLower(s) == s
  {
  }

  /** A lowered character is a lowercase nibble exactly when it was a nibble in either case. */
  lemma LowerCharIsHex(c: char)
    ensures IsHexNibble(LowerChar(c)) <==> IsHexNibbleAnyCase(c)
  {
  }

  /**
   * Because every token is lowered before it is validated, a token is accepted
   * exactly when it is a non-empty run of at most 40 nibbles in either case.
   */
  lemma {:induction false} LoweredTokenAccepted(s: string)
    ensures ValidateWord(ToLower(s)).None? <==> TokenAccepted(s)
  {
    var t := ToLower(s);
    if ValidateWord(t).None? {
      forall i | 0 <= i < |s| ensures IsHexNibbleAnyCase(s[i]) {
        assert t[i] in t;
        LowerCharIsHex(s[i]);
      }
    }
    if TokenAccepted(s) {
      forall c | c in t ensures IsHexNibble(c) {
        var i :| 0 <= i < |t| && t[i] == c;
        LowerCharIsHex(s[i]);
      }
    }
  }

  /** Tokens that differ only in case become the same token. */
  lemma CaseFoldingExample()
    ensures ToLower("AB12") == ToLower("ab12") == "ab12"
    ensures ValidateWord(ToLower("AB12")).None?
  {
  }

  /** A non-hex token and a 41-nibble token are both rejected. */
  lemma RejectionExamples()
    ensures ValidateWord("xy") == Some(NotHex("xy"))
    ensures ValidateWord(seq(41, _ => 'a')) == Some(TooLong(seq(41, _ => 'a')))
    ensures ValidateWord("") == Some(NotHex(""))
  {
    assert !IsHexNibble("xy"[0]);
    assert MatchesHexPattern(seq(41, _ => 'a'));
  }
}
