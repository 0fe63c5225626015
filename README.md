# unamex in Dafny

A model of the Go package `unamex`, which validates usernames and suggests
alternatives. It covers the three core files:

- **helper.go** (module `Helper`, plus `Chars` for the byte classifiers and
  tables). This holds the transformation primitives:
  - the vowel scans `VanishVowel`, `VowelTransform` and `RepeatVowel`;
  - `AlphabetTransform`;
  - the fixed-position edits;
  - the digit edits and their `Set*` dispatchers;
  - `SwapTwoChars`;
  - `isLetter`, `isDigit` and `isVowel`;
  - the two swap tables `vowelSwap` and `alphabetSwap`;
  - `shuffleSuggestors`.
- **validate.go** (module `Validate`, plus `Search` for `sort.SearchStrings`).
  This holds:
  - the three default validators: range, format and integrity;
  - `defaultValidator`;
  - the first-failure semantics of `Identity.Validate`;
  - `Identity.isValid` with its reset to the defaults;
  - `isSymmetric`.
- **core.go** (module `Core`). This holds:
  - the `Identity` object with its three fields;
  - `New`, `On`, `WithValidator` and `WithSuggestor`;
  - `defaultSuggestors`;
  - `Suggest`.

Go strings are sequences of bytes (`Chars.byte`, `Chars.Bytes`).

Go's `math/rand` is replaced by explicit choices passed in as parameters:

- **Vowel scans.** They take a coin per scan position (`coins[i]`; a missing
  coin reads as tails). The scan acts on the first eligible vowel whose coin
  is heads, or else on the last eligible vowel (`Helper.Chosen`).
- **Digit edits.** They take the drawn number `k`, with the range `rand.Intn`
  allows as a precondition.
- **`Set*` dispatchers.** They take the band `rand.Intn(3)` drew.
- **Shuffle.** It takes the Fisher–Yates swap indices (`Helper.ValidSwaps`).

Suggestors and validators are datatypes:

- `Core.Suggestor` has one tag per default suggestor and `Custom(f)` for a
  caller's function. Seven helpers are methods proved equal to a
  specification function: `DoubleByte`, and the loops of `VanishVowel`,
  `VowelTransform`, `RepeatVowel` and `AlphabetTransform` over the byte
  buffer. `SwapTwoChars` swaps buffer positions in place without a loop, and
  `ShuffleSuggestors` swaps array cells in a loop. The fixed-position edits
  and the digit prefixes and suffixes are functions. `Core.Invoke` runs one
  suggestor through these methods and functions.
- `Validate.Rule` has the three built-in rules and `CustomRule(f)`.

`Identity` is a class whose methods update `uname`, `validator` and
`suggestor` in place. The shuffle works in place on an array.

The model follows the code where its comments say otherwise:

- `SetPostInitialSepDigit` puts the digit and the separator at the front of
  the name. Its comment says they go after the first byte; the code and its
  unit test put them in front.
- `vowelSwap` maps `a` and `A` to themselves, and `alphabetSwap` maps `a` to
  `e` but `e` to `i`, so it is not an involution.
  - The unit tests for both tables expect every listed byte to change. Those
    tests compare a `byte` with a `rune`, so they cannot fail.
  - The model proves what the tables actually do: `Chars.VowelSwapInvolution`
    and `Chars.AlphabetSwapInvolution`.

## Model

| member | source | states |
|---|---|---|
| Chars.ClassifiersExactly | helper.go:335-341 | isLetter accepts exactly the 52 ASCII letters, isDigit exactly the ten digits, and no byte is both |
| Chars.VowelsExactly | helper.go:343-350 | the bitset test accepts exactly the ten ASCII vowels `aeiouAEIOU`; a vowel is a letter and never a digit |
| Chars.VowelSwapInvolution | helper.go:352-378 | vowelSwap sends a vowel to a vowel of the same case and is its own inverse on vowels; `a` and `A` are its only fixed vowels; every non-vowel becomes `'0'` |
| Chars.AlphabetSwap | helper.go:380-412 | alphabetSwap keeps letters letters and lower case lower case |
| Chars.AlphabetSwapInvolution | helper.go:380-412 | swapping twice gives the byte back for every byte except `a`; exactly the thirteen listed letters change |
| Chars.DecimalRoundTrip | helper.go:209 | the rendering `byteNumbers[k]` of a number parses back to that number |
| Chars.DecimalWidth | helper.go:264-272 | numbers below 10, 100 and 1000 have one, two and three digits, with no leading zero; this is what makes `place` in PrefixRandomDigit the digit count |
| Helper.DoubleByte | helper.go:16-23 | the result is the byte twice |
| Helper.Chosen | helper.go:32-54 | the scan position is -1 exactly when no vowel is eligible; otherwise it is eligible and is either the first eligible vowel with heads, or, when no coin came up heads, the last eligible vowel |
| Helper.VanishVowelShape | helper.go:25-54 | with a vowel past the first byte, exactly one such vowel is removed and the length drops by one; otherwise the name is unchanged |
| Helper.VanishVowel | helper.go:32-54 | the loop returns the specified removal for every coin sequence |
| Helper.VowelTransformShape | helper.go:56-93 | exactly one vowel is rewritten by f; the length and every other byte are kept |
| Helper.VowelTransform | helper.go:72-93 | the loop over the byte buffer returns the specified rewrite |
| Helper.RepeatVowelShape | helper.go:95-116 | with a vowel present, one vowel gets a copy inserted right after it and the length grows by one; otherwise the name is unchanged |
| Helper.RepeatVowel | helper.go:100-116 | the loop returns the specified duplication |
| Helper.AlphabetTransform | helper.go:130-139 | f is applied to every byte in place; an identity f leaves the name unchanged |
| Helper.RepeatSubfix | helper.go:144-149 | the byte at the midpoint appears twice; removing one copy gives the name back |
| Helper.RepeatPrefix | helper.go:153-157 | the first byte is prepended; dropping it gives the name back |
| Helper.RepeatSuffix | helper.go:161-166 | the last byte is appended; dropping it gives the name back |
| Helper.SetPostInitialSep | helper.go:170-175 | the separator follows the first byte; removing it gives the name back |
| Helper.SetPenultimateSep | helper.go:179-184 | the separator precedes the last byte; removing it gives the name back |
| Helper.SetPenultimateSepDigit | helper.go:188-192 | the name, then the separator, then one digit that parses back to the drawn number |
| Helper.SetPostInitialSepDigit | helper.go:196-202 | one digit that parses back to the drawn number, then the separator, then the whole name |
| Helper.SepWithRandomDigit | helper.go:206-211 | the name, the separator, then the digits of the drawn number below nRange, which parse back to it |
| Helper.RepeatInitialAppendDigit | helper.go:248-256 | the first byte is repeated in front and the drawn number's digits are appended, parsing back to it |
| Helper.PrefixRandomDigit | helper.go:262-278 | for ranges up to 1000 the rotation puts exactly the drawn number's digits in front of the unchanged name; above 1000 `place` stays 1, so only the last digit moves to the front and the others stay behind the name |
| Helper.SuffixRandomDigit | helper.go:282-286 | the name followed by digits that parse back to the drawn number |
| Helper.SetPrefixRandomDigit | helper.go:291-300 | for each of the three bands, the drawn number's digits precede the name, with three, two and one digits respectively |
| Helper.SetSuffixRandomDigit | helper.go:305-314 | the name followed by the number's digits, one to three of them |
| Helper.SetSepWithRandomDigit | helper.go:319-328 | the name, the separator and the number's digits, two to four bytes added |
| Helper.SwappedPermutes | helper.go:228-239 | a swap exchanges the two positions, keeps all other positions, and keeps the multiset of bytes |
| Helper.SwapTwoCharsPermutes | helper.go:218-243 | SwapTwoChars keeps the length and the multiset of bytes, and leaves names shorter than 3 bytes alone |
| Helper.SwapTwoChars | helper.go:218-243 | the in-place swaps on the buffer give the specified case split: last two bytes, middle two, or the thirds |
| Helper.FisherYatesPermutes | helper.go:330-334 | every sequence of Fisher–Yates swaps permutes its input |
| Helper.Shuffled | helper.go:330-334 | a shuffle keeps the length and the multiset of suggestors |
| Helper.ShuffleSuggestors | helper.go:330-334 | the in-place swaps on the array leave it holding the specified shuffle of its old contents |
| Helper.VanishVowelEvery | unit_test.go:229-230 | `"every"` becomes `"evry"` whatever the coins |
| Helper.VowelTransformWorld | unit_test.go:240-241 | `"world"` with vowelSwap becomes `"wurld"` whatever the coins |
| Helper.RepeatVowelWorld | unit_test.go:251-252 | `"world"` becomes `"woorld"` whatever the coins |
| Helper.AlphabetTransformHello | unit_test.go:257-258 | `"hello"` with alphabetSwap becomes `"hillu"` |
| Helper.FixedEditsUser | unit_test.go:267-288 | the fixed-position edits give `usernname`, `uuser`, `userr`, `u.ser` and `use.r` |
| Helper.SwapTwoCharsVectors | unit_test.go:337-345 | `user` becomes `usre`, `ab` is kept, `unamee` becomes `unmaee` |
| Search.LessIrreflexive | validate.go:184 | Go's string order is irreflexive |
| Search.LessTransitive | validate.go:184 | Go's string order is transitive |
| Search.LessTotal | validate.go:184 | any two strings are equal or ordered one way |
| Search.SearchRange | validate.go:184 | the binary search over [lo, hi) returns the boundary: every entry before it is below x and none after it is |
| Search.SearchStrings | validate.go:184 | sort.SearchStrings returns the first position whose entry is not below x |
| Search.SearchFindsMembers | validate.go:184-185 | on a sorted list, finding x at the returned index is the same as x being in the list |
| Validate.ValidateRange | validate.go:121-133 | a name passes exactly when it has 5 to 30 bytes; the empty name is refused with its own error and any other refusal reports the length error; a pass reports no error |
| Validate.ValidateFormat | validate.go:142-172 | the counting loop refuses exactly the names the declarative format rule refuses: empty, dot at either end, a foreign byte, a second dot, or no letter at all |
| Validate.LowerByte | validate.go:183 | lowering changes only upper-case letters, to the matching lower-case letter |
| Validate.ToLower | validate.go:183 | the result has the same length and no upper-case ASCII letter; each byte is kept or is an upper-case letter moved down by 32 |
| Validate.ToLowerIdempotent | validate.go:183 | lowering twice is lowering once, and non-letters are kept |
| Validate.CheckIntegrity | validate.go:181-190 | against any sorted list, the search-based check refuses exactly the names whose lower-case form is listed, with the weak-or-common error |
| Validate.BlacklistSorted | validate.go:184 | the blacklist is sorted, as sort.SearchStrings needs |
| Validate.ValidateIntegrity | validate.go:181-190 | a name passes exactly when its lower-case form is not on the blacklist |
| Validate.Run | validate.go:51-52 | one validator call returns that rule's verdict |
| Validate.FirstFailing | validate.go:51-55 | the index is that of the first refusing validator; it equals the list length exactly when all pass |
| Validate.DefaultValidator | validate.go:200-206 | three rules: range, format, integrity |
| Validate.ErrorOnlyOnFailure | validate.go:46-57 | an accepting list reports no error; any reported error comes from a refusing validator |
| Validate.SilentRefusal | validate.go:51-54 | a validator that refuses with a nil error makes Validate report no error although the name was refused |
| Validate.DefaultsAccept | validate.go:200-206 | with the defaults, no error exactly when the length is 5 to 30, the format holds and the lower-case name is not blacklisted |
| Validate.SarahAdams | unit_test.go:128 | `sarah.adams` has the format, is lower case and is not listed |
| Validate.Sarah123 | unit_test.go:129 | `sarah.123` has the format, is lower case and is not listed |
| Validate.AcceptedName | unit_test.go:128 | `sarah.adams` passes the default validators |
| Validate.AcceptedNameWithDigits | unit_test.go:129 | `sarah.123` passes the default validators |
| Validate.ListedName | unit_test.go:132 | `abcde` is refused as weak or common |
| Validate.ListedNameAnyCase | validate.go:183-185 | `DeLeTe` is refused as weak or common: the lookup is in lower case |
| Validate.ShortListedName | unit_test.go:131 | `root` is refused by the range rule, before the blacklist is consulted |
| Validate.MisplacedDotNames | unit_test.go:135-144 | names with a dot at an end or two dots, and the empty name, fail the format rule |
| Validate.BadContentNames | unit_test.go:140-142 | all-digit names and names with `@` fail the format rule |
| Validate.OutOfRangeNames | unit_test.go:144-149 | `sar`, `abc`, `x.1` and a 31-byte name fail the range rule; the empty name gets the empty-name error |
| Core.Invoke | core.go:146-170 | running one suggestor through the helper methods gives its specified output |
| Core.DefaultSuggestors | core.go:146-173 | sixteen suggestors, all different |
| Core.DefaultsDefined | core.go:146-170 | on a non-empty name with a vowel, every default suggestor can run under a single-digit draw (band 2, number below 10) |
| Core.Kept | core.go:126-138 | the kept suggestions are exactly the accepted outputs, none twice, no more than were produced |
| Core.KeptInOrder | core.go:126-138 | suggestions appear in the order their outputs were first produced |
| Core.KeptSnoc | core.go:130-137 | one more output is kept exactly when it is accepted and not yet kept |
| Core.KeptAllFresh | core.go:126-138 | when every output is accepted and all differ, every output is kept, in order |
| Core.KeptStep | core.go:127-137 | running suggestor i extends the kept list exactly when its output is accepted and new |
| Core.Examined | core.go:112-114 | the number of suggestors examined is the capacity, cut down to the list length |
| Core.Identity.New | core.go:53-65 | the first given name, or `default`, with the default validators and suggestors |
| Core.Identity.On | core.go:70-73 | sets the name and nothing else, returning the same object |
| Core.Identity.WithValidator | validate.go:77-80 | replaces the validator list and nothing else, returning the same object |
| Core.Identity.WithSuggestor | core.go:91-94 | replaces the suggestor list and nothing else, returning the same object |
| Core.Identity.Validate | validate.go:46-57 | the extra validators stay appended; the error returned is that of the first refusing validator, or none |
| Core.Identity.IsValid | validate.go:91-113 | an empty list is replaced by the defaults; a suggestion is valid exactly when every validator accepts it and it is not symmetric, i.e. differs from the name |
| Core.Identity.Suggest | core.go:107-141 | the extras stay appended and the list is shuffled, keeping its multiset; the result is the accepted outputs of the first min(capacity, length) suggestors, none equal to the name, none twice, in order of first appearance |
| Core.Identity.AppendAndShuffle | core.go:108-116 | the list becomes the shuffle of the old list plus the extras |
| Core.Identity.Collect | core.go:118-140 | the loop with its `seen` set returns exactly the kept outputs of the examined suggestors |

## Left out

- Randomness: `math/rand`'s distribution is not modelled. Every coin, band,
  drawn number and swap index is a parameter, and the contracts hold for all
  of them.
- `Helper.ShuffleSuggestors`: the swap indices must form a valid
  Fisher–Yates sequence. Whether `rand.Shuffle` picks them uniformly is not
  stated.
- Text and bytes:
  - Go's `strings.ToLower` handles all of Unicode; `Validate.ToLower` folds
    ASCII only, because names are modelled as bytes.
  - The exact error message strings become `Validate.Error` tags. A custom
    validator's message is `Reported(message)`.
- Constants not part of this model:
  - The built-in blacklist is not part of this model. `Validate.Blacklist` is
    a sorted stand-in holding the three entries the unit tests name. Every
    integrity property is proved for an arbitrary sorted list
    (`Validate.CheckIntegrity`).
  - `byteNumbers` is modelled as the decimal rendering of 0..999.
  - `separator` is modelled as `'.'`.
- Panics become preconditions, each matching a Go index or slice panic:
  - the fixed-position edits need a non-empty name;
  - `VowelTransform` needs a vowel, because Go indexes `b[-1]` otherwise;
  - the digit edits need `k < nRange`;
  - `Core.Identity.Suggest` needs `capacity >= 0`, because `make` panics on a
    negative capacity;
  - each suggestor `Suggest` runs must be defined on the name (`Core.Defined`).
- Slice aliasing: Go's `append` may share backing arrays between the caller's
  slice and the object's list. The model copies values, so writes through
  shared backing arrays are not captured.
- Custom functions: custom suggestors and validators are modelled as total,
  deterministic functions of the name. Go functions that panic, keep state or
  read the object are not covered.
- Out of scope:
  - concurrency;
  - the benchmarks in `bench_test.go`;
  - the example program in `example/main.go`.
