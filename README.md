# Vanity address search: a Dafny model

This project models the sequential logic of a Go program that looks for
Ethereum "vanity" addresses. An address is 40 lowercase hex nibbles. The user
gives a list of prefixes (`-p`) and a list of suffixes (`-s`). Pair `i` asks for
an address that starts with prefix `i` and ends with suffix `i`. The program
generates random accounts until one address matches some pair.

The model covers four pieces of the program:

- **Token validation and normalisation** (`Words`, `Flags`). `validateWord`
  accepts one or more lowercase nibbles, at most 40 of them. `main` lowers
  every token in place before it validates it, prefixes first. A list that was
  not given is then filled with as many empty strings as the other list has.
  The `-p`/`-s` flag is a class (`Flags.StringsFlag`) whose token list the
  methods update in place.
- **Matcher set-up and match test** (`Matcher`, `Search`). `searchAddress`
  rejects lists of different lengths. It records every token's length in an
  array. It computes two flags: whether all prefixes share one length, and
  whether all suffixes do. For each candidate address it scans the pairs in
  order and stops at the first match. The scan slices the address once per
  attempt when a flag is set, and once per pair otherwise. `ScanPairs` is
  proved equal to the per-pair reference definition `FirstMatchFrom` whatever
  the flags are.
- **Per-pair estimates** (`Estimator`). A pair of `n` nibbles has `4n` bits.
  The 100% figure is `2^(4n)` attempts and the 50% figure is half of that.
- **Order of work in `main`** (`Launch`). Normalise, estimate, then search,
  for one worker.

Key generation is not modelled. The addresses it would produce are passed in
as a finite sequence of 40-character strings. The Go loop never gives up; the
model stops with `Exhausted` when the sequence runs out. Every `os.Exit(1)`,
and the index panics for no pairs (line 88) and for a short suffix list
(line 219), become error values; the division at line 228 is left out with
the aggregate line.

Behaviour of the code that the model keeps as written:

- The code never checks the worker count (`-t`). A count of 0 makes the
  estimator's integer division panic. A negative count starts no workers.
- The code does not bound the combined length of a prefix and its suffix.
  Each side may be up to 40 nibbles, and the two sides may overlap in the
  address.
- With neither list given, there is no separate "no constraints" error.
  `searchAddress` indexes `prefix[0]` of an empty list and panics; this is
  `NoPairs` here.
- With a shorter suffix list, the estimator panics before the mismatch
  message can be printed (see Findings).

## Model

| member | source | states |
|---|---|---|
| `Words.ValidateWord` | similar-ethereum-address-finder.go:56-66 | accepted exactly when the word is non-empty, at most 40 characters, and every character is in `0-9a-f`; a rejection carries the word; a word failing the hex pattern is `NotHex` whatever its length; `TooLong` only for words over 40 |
| `Words.RejectionExamples` | similar-ethereum-address-finder.go:56-66 | `"xy"` and `""` are rejected as not hex; a 41-nibble word is rejected as too long |
| `Words.ToLower` | similar-ethereum-address-finder.go:182-189 | lowering keeps the length and lowers each character on its own |
| `Words.ToLowerIdempotent` | similar-ethereum-address-finder.go:182-189 | lowering twice gives the same as lowering once |
| `Words.ToLowerKeepsLowercase` | similar-ethereum-address-finder.go:182-189 | a token with no uppercase letter is unchanged by lowering |
| `Words.LowerCharIsHex` | similar-ethereum-address-finder.go:182-189 | a lowered character is a lowercase nibble exactly when the original was a nibble in either case |
| `Words.LoweredTokenAccepted` | similar-ethereum-address-finder.go:182-189 | since tokens are lowered first, a token is accepted exactly when it is 1 to 40 nibbles in either case |
| `Words.CaseFoldingExample` | similar-ethereum-address-finder.go:182-189 | `"AB12"` and `"ab12"` become the same accepted token `"ab12"` |
| `Flags.StringsFlag.constructor` | similar-ethereum-address-finder.go:20-29 | a list flag holds whether it was given and its token list, as set from the command line |
| `Flags.Normalize` | similar-ethereum-address-finder.go:182-197 | what `main` makes of the two flags: on success a given list is its tokens lowered, and with exactly one list given the two lists have equal length |
| `Flags.Blanks` | similar-ethereum-address-finder.go:190-197 | `make([]string, n)` is `n` empty strings |
| `Flags.LowerAll` | similar-ethereum-address-finder.go:182-189 | the list keeps its length and order, each token lowered |
| `Flags.FirstInvalid` | similar-ethereum-address-finder.go:182-189 | no error exactly when every token is accepted; otherwise the error of a rejected token with every earlier token accepted |
| `Flags.FirstInvalidAppend` | similar-ethereum-address-finder.go:182-189 | when the prefix loop runs before the suffix loop, a bad prefix is reported before any bad suffix |
| `Flags.FirstInvalidAt` | similar-ethereum-address-finder.go:182-185 | the error found at position `i`, with all earlier tokens accepted, is the one reported |
| `Flags.NormalizeFailsIffSomeTokenInvalid` | similar-ethereum-address-finder.go:182-189 | normalisation fails exactly when some given token is not 1-40 nibbles of either case |
| `Flags.NormalizeReportsPrefixesFirst` | similar-ethereum-address-finder.go:182-189 | the reported error is that of the first bad prefix, or of the first bad suffix when every prefix is good |
| `Flags.NormalizedTokensAreNormal` | similar-ethereum-address-finder.go:182-197 | after normalisation every token is empty or valid lowercase hex, and at most 40 long |
| `Flags.OnlyPrefixesSupplied` | similar-ethereum-address-finder.go:190-193 | prefixes only: the prefixes stay (lowered) and the suffixes become that many empty strings |
| `Flags.OnlySuffixesSupplied` | similar-ethereum-address-finder.go:194-197 | suffixes only: the suffixes stay (lowered) and the prefixes become that many empty strings |
| `Flags.NormalizeIgnoresCase` | similar-ethereum-address-finder.go:182-189 | normalising the lowered lists gives the same result as normalising the originals |
| `Flags.LowerAllIdempotent` | similar-ethereum-address-finder.go:182-189 | lowering a list twice gives the same as lowering it once |
| `Flags.OnlyPrefixExample` | similar-ethereum-address-finder.go:190-193 | `-p ab` alone gives the single pair `("ab", "")` |
| `Flags.CaseInsensitiveExample` | similar-ethereum-address-finder.go:182-185 | `-p AB12` and `-p ab12` give the same pairs |
| `Flags.NotHexExample` | similar-ethereum-address-finder.go:182-185 | `-p xy` fails as not hex |
| `Flags.LowerAndValidate` | similar-ethereum-address-finder.go:182-185 | the in-place loop reports the first rejected lowered token; on success the flag holds the lowered list |
| `Flags.NormalizeFlags` | similar-ethereum-address-finder.go:182-197 | the two flags end in the state `Normalize` describes, or the first token error is returned; `set` bits unchanged |
| `Matcher.PairMatches` | similar-ethereum-address-finder.go:128-139 | the per-pair slice comparison of an address with one prefix/suffix pair; the pair of two empty strings matches every address |
| `Matcher.PairMatchesMeansStartsAndEnds` | similar-ethereum-address-finder.go:126-139 | the slice comparison holds exactly when the address starts with the prefix and ends with the suffix |
| `Matcher.EmptySideAlwaysMatches` | similar-ethereum-address-finder.go:126-139 | an empty prefix or suffix constrains nothing on its side |
| `Matcher.EmptyPrefixExample` | similar-ethereum-address-finder.go:126-139 | the pair `("", "ab")` matches every address ending in `ab` |
| `Matcher.FirstMatchFrom` | similar-ethereum-address-finder.go:126-144 | a found index is one of the pairs at or after the start index |
| `Matcher.FirstMatchFromSpec` | similar-ethereum-address-finder.go:126-144 | a found index is a matching pair with no matching pair before it; nothing is found exactly when no pair matches |
| `Matcher.FirstMatchFindsAnyMatch` | similar-ethereum-address-finder.go:126-144 | if pair `i` matches, the scan finds a match at an index no later than `i` |
| `Search.SearchFrom` | similar-ethereum-address-finder.go:108-145 | the attempt loop never ends in a start-up error |
| `Search.SearchFromFound` | similar-ethereum-address-finder.go:108-145 | a found address is the first candidate whose scan finds a pair, with that pair and the attempt count |
| `Search.SearchFromExhausted` | similar-ethereum-address-finder.go:108-145 | the loop runs out, after every candidate, exactly when no candidate's scan finds a pair |
| `Search.Search` | similar-ethereum-address-finder.go:78-99 | a length mismatch exactly when the lists differ in length; `NoPairs` exactly for two empty lists |
| `Search.SearchFoundSpec` | similar-ethereum-address-finder.go:108-145 | a found address is the candidate of its attempt, matches its pair and no lower pair, and no earlier candidate matched any pair |
| `Search.SearchExhaustedSpec` | similar-ethereum-address-finder.go:108-145 | the search runs out exactly when there are pairs and no candidate matches any of them |
| `Search.FillLengths` | similar-ethereum-address-finder.go:85-106 | the array holds every token's length; the flag is true exactly when every length equals that of token 0 |
| `Search.ScanPairs` | similar-ethereum-address-finder.go:118-144 | with either same-length shortcut on or off, the scan returns exactly the first matching pair of the per-pair reading |
| `Search.SearchAddress` | similar-ethereum-address-finder.go:78-148 | the imperative search returns what `Search` describes |
| `Estimator.Pow2` | similar-ethereum-address-finder.go:221 | `2^n` is at least 1 |
| `Estimator.Pow2Add` | similar-ethereum-address-finder.go:221 | `2^(a+b) = 2^a * 2^b` |
| `Estimator.EstimatePair` | similar-ethereum-address-finder.go:219-226 | one pair's printed figures: a whole number of nibbles' bits, at least one attempt for 100%, and the 50% figure half of it |
| `Estimator.HarmonicSum` | similar-ethereum-address-finder.go:217-222 | the running sum of `1/2^bits` over the pairs in order, never negative |
| `Estimator.EstimateIsSixteenPerNibble` | similar-ethereum-address-finder.go:219-226 | one more nibble on either side multiplies the 100% figure by 16; the 50% figure is half the 100% figure |
| `Estimator.EstimateIsPowerOf16` | similar-ethereum-address-finder.go:219-221 | the 100% figure is 16 to the power of the pair's nibble count |
| `Estimator.SingleNibbleExample` | similar-ethereum-address-finder.go:219-226 | prefix `"a"` with no suffix: 4 bits, 16 attempts for 100% and 8 for 50% |
| `Estimator.HarmonicSumAppend` | similar-ethereum-address-finder.go:222 | each pair adds `1/2^bits` to the running sum |
| `Estimator.HarmonicSumBounds` | similar-ethereum-address-finder.go:217-228 | the sum lies between 0 and the pair count, and is positive exactly when there is a pair |
| `Estimator.Estimates` | similar-ethereum-address-finder.go:216-227 | fails exactly when there are fewer suffixes than prefixes; otherwise one estimate per prefix, pair `i` from prefix `i` and suffix `i` |
| `Estimator.PrintAttemptEstimates` | similar-ethereum-address-finder.go:216-227 | the loop returns what `Estimates` describes, with its running harmonic sum |
| `Launch.NormalizedFit` | similar-ethereum-address-finder.go:182-189 | normalised tokens never exceed the address width |
| `Launch.Launch` | similar-ethereum-address-finder.go:178-207 | `main` as written ends on a token error exactly when normalisation fails; a search that starts ends with a match or by running out |
| `Launch.LaunchChecked` | similar-ethereum-address-finder.go:178-207 | the corrected order never panics in the estimator; token errors and search endings as for `Launch` |
| `Launch.ShortSuffixListPanicsInEstimator` | similar-ethereum-address-finder.go:203 | `-p 12,13 -s 89` stops in the estimator as written, and with the corrected order it is reported as a 2-vs-1 mismatch |
| `Launch.MismatchedListsNormalize` | similar-ethereum-address-finder.go:182-189 | `-p 12,13 -s 89` passes validation unchanged |
| `Launch.LaunchPanicsOnShorterSuffixes` | similar-ethereum-address-finder.go:216-219 | as written, the estimator panics exactly when the normalised suffix list is shorter |
| `Launch.LaunchCheckedReportsMismatch` | similar-ethereum-address-finder.go:79-83 | with the corrected order, a mismatch is reported exactly when the normalised lists differ in length |
| `Launch.LaunchCheckedAgreesOtherwise` | similar-ethereum-address-finder.go:178-207 | the correction changes nothing when the lists line up or a token is rejected |
| `Launch.FoundAddressHonoursTokens` | similar-ethereum-address-finder.go:112-145 | a reported address is the candidate of that attempt; it starts with the lowered prefix token of its pair when prefixes were given and ends with the lowered suffix token when suffixes were given |
| `Launch.NoTokensNoSearch` | similar-ethereum-address-finder.go:88 | with no lists at all, `searchAddress` cannot start (it indexes element 0 of an empty list) |

## Left out

- Key generation and address derivation (`generateAccount`, lines 68-76) call go-ethereum. They are replaced by a given sequence of candidate addresses.
- The private key result (line 147) is not modelled. The source encodes the package-level `key`. `generateAccount` never assigns that variable, because line 70 declares a new local `key`.
- Search.SearchAddress: returns the found address, its pair index and the attempt count, not the private key. It stops when the given candidates run out; the Go loop runs until a match.
- The goroutines, the channel and the thread count (lines 181, 199-214) are not modelled. Each worker runs the same sequential search, and the model follows one of them.
- Flag parsing (`stringsFlag.Set`, `IntFlag`, `init`, `flag.Parse`, `strings.Split`) is library plumbing. The model starts from each flag's `set` bit and token list.
- Words.ToLower: lowers ASCII letters only. Go's `strings.ToLower` also lowers other Unicode letters. No such letter becomes a character in `0-9a-f`, so acceptance is unchanged. For a rejected token with a non-ASCII letter, Go prints the Unicode-lowered word (line 60 prints the token after line 183 lowered it), while `NotHex` here carries that letter as given.
- Go counts `len` in bytes; the model counts characters. The two agree on every word that passes the hex pattern.
- The aggregate line (lines 228-230) is not modelled. It truncates `1.0/harmonicSum` to an integer and divides it by the thread count. This is floating-point and integer conversion of an infinite value when there are no pairs. The harmonic sum itself is modelled over `real` as an idealisation of the `float64` sum.
- All printing, the progress line every 50000 attempts (lines 113-115) and the exit codes are output only. Exits are modelled as error values.

## Findings

| source | as written | input that shows it | evidently intended | confidence | as-written member | corrected member |
|---|---|---|---|---|---|---|
| similar-ethereum-address-finder.go:203 | `main` calls `printAttemptEstimates` before `searchAddress` compares the list lengths; the estimator reads `suffixes[i]` for every prefix index and panics when the suffix list is shorter | `-p 12,13 -s 89`: index 1 of a one-element suffix list | report "Length of prefix and suffix arrays doesn't match" and exit with status 1, as lines 80-83 do | medium; not executed | `Launch.ShortSuffixListPanicsInEstimator` | `Launch.LaunchChecked` |
