# Coupon codes with check digits

A Dafny model of the `Generator` class of ryantxr/coupon-code, a PHP
library that issues and checks human-typable coupon codes shaped like
`XXXX-XXXX-XXXX`. A code is a number of segments joined by dashes. Each
segment ends with a check digit computed from the other symbols and the
segment's 1-based position.

Generation goes like this:

- It hashes some random bytes with SHA-512.
- It maps the 128 hexadecimal digits of the digest to symbols of a
  32-symbol alphabet.
- It slices candidate segments out of that stream one slot at a time.
- It drops every candidate that spells a denylisted word (the list is stored
  ROT13-encoded), and every candidate that would still pass its checksum
  after two neighbouring characters are swapped.

Validation works on the entered code in three steps:

- It upper-cases it.
- It reads I, O, S and Z as 1, 0, 5 and 2.
- It strips every other character outside `[0-9A-Z]`.

It then checks the length and each fixed-width chunk's check digit.

The modules follow the parts of the class:

- `Alphabet` (alphabet.dfy) holds the symbols, the `array_flip` reverse
  index and symbol values.
- `Checksum` (checksum.dfy) is check digit algorithm 1 and its
  error-detection properties.
- `BadWords` (badwords.dfy) is ROT13 and the denylist.
- `Transposition` (swaps.dfy) holds `swapChars`, `swappableVariations` and
  `isSegmentValidWhenSwapped`.
- `Permutations` (permute.dfy) holds `permute` and `permuteString`.
- `Normalization` (normalize.dfy) is `normalizeCode`.
- `Text` (text.dfy) models the PHP string functions the class uses:
  `substr`, `implode` and `str_split`. It also defines `Explode`, the
  inverse of `implode` at a separator. The class never calls `explode`;
  `Explode` only serves to state the shape of a generated code.
- `CouponCode` (generator.dfy) holds the configuration, the generation loop,
  validation, the dash-separated normal form and the `Generator` class
  itself, whose methods update its fields.

Generation is specified twice:

- `CouponCode.Scan` is a function of the loop state: the offset of the
  current attempt and the segments accepted so far.
- `CollectSegments` is the `while` loop of the source, proved to return
  the value Scan determines. `Generator.GenerateCode` joins its segments
  and returns `GeneratedCode`.

Validation is specified by the function `CodeValidity` and implemented by
`Generator.ValidateCode`.

The random bytes and their SHA-512 digest are not computed. The digest is
a parameter: the sequence of byte values of the string `hash('sha512', …)`
returns. `IsHexDigest` says what such a digest looks like.

The model follows the source where it behaves differently from the
scheme it implements as usually described:

- A character outside the alphabet has no entry in the reverse index.
  PHP reads the missing entry as null, which is 0 in arithmetic. It does
  not fail with an error of its own, so `IndexOf` gives 0.
- The digest is the hexadecimal text, not raw hash bytes. So the stream
  only uses 16 symbols (`HexDigestStream`).
- Generation also stops when the data of a candidate are the string "0",
  which PHP treats as false. Only a segment length of 2 can produce such
  data, and a hexadecimal digest never yields the symbol '0'.
- Validation can throw: `str_split` rejects a chunk length below 1.
- The round trip needs a segment count of at least 0 and a segment length
  of at least 1. With any negative count and a nonzero length, generation
  returns "" and validation rejects it (`RoundTripNeedsCount`).
- `normalizeCode` upper-cases only when asked; validation always asks.

## Model

| member | source | states |
|---|---|---|
| Alphabet.Flip | src/CouponCode/Generator.php:115 | `array_flip`: the keys are exactly the characters of the list, and each key maps to a position holding it |
| Alphabet.IndexOfIsLookup | src/CouponCode/Generator.php:115 | the reverse index has an entry exactly for the 32 symbols; the symbol value used by the model is that entry, and 0 (PHP's null) for any other character |
| Alphabet.SymbolRange | src/CouponCode/Generator.php:45-50 | the alphabet is exactly the digits and the capital letters other than I, O, S and Z |
| Alphabet.IndexOf | src/CouponCode/Generator.php:228 | the value of a character, below 32: the position of a symbol in the alphabet (IndexOfSymbolAt, IndexOfIsLookup), and 0 for any other character |
| Alphabet.CharactersDistinct | src/CouponCode/Generator.php:45-50 | the alphabet has 32 symbols, with no symbol repeated |
| Alphabet.IndexOfInjective | src/CouponCode/Generator.php:228 | two symbols with the same value are the same symbol |
| Checksum.Accumulate | src/CouponCode/Generator.php:225-229 | the accumulator of `checkdigitAlgorithm1`, seeded with the position and folded by `acc * 19 + value`. CheckDigitOf, PositionSensitive and SubstitutionChangesCheckDigit state what it guarantees |
| Checksum.CheckDigitOf | src/CouponCode/Generator.php:223-232 | the check symbol's value is the accumulator (seeded with the position, folded by `acc * 19 + value`) modulo 32 |
| Checksum.CheckDigitIsSymbol | src/CouponCode/Generator.php:231 | every check digit is one of the 32 alphabet symbols |
| Checksum.CheckDigit | src/CouponCode/Generator.php:223-232 | the `foreach` accumulator loop returns the check symbol of the data at the position |
| Checksum.PositionSensitive | src/CouponCode/Generator.php:225 | the same data get the same check digit in two positions exactly when the positions agree modulo 32 |
| Checksum.SubstitutionChangesCheckDigit | src/CouponCode/Generator.php:227-231 | replacing one data symbol by a different symbol always changes the check digit |
| Checksum.SubstitutionDetected | src/CouponCode/Generator.php:191-197 | a segment that passes its checksum fails it once any one of its symbols is replaced by a different symbol |
| BadWords.Rot13 | src/CouponCode/Generator.php:242 | `str_rot13`, character by character; Rot13Involutive states that it undoes itself |
| BadWords.IsBadWord | src/CouponCode/Generator.php:240-243 | `isBadWord`: the encoded word is on the encoded list. IsBadWordIffPlain and BadWordHasFourChars state what that means for the plain word |
| BadWords.Rot13Involutive | src/CouponCode/Generator.php:242 | `str_rot13` applied twice gives the input back |
| BadWords.IsBadWordIffPlain | src/CouponCode/Generator.php:57-60 | testing the encoded word against the encoded list is testing the plain word against the plain word list |
| BadWords.BadWordHasFourChars | src/CouponCode/Generator.php:240-243 | only a four-character word can be bad, so other segment lengths are never filtered |
| Transposition.SwapChars | src/CouponCode/Generator.php:331-336 | positions i and j exchange their characters and every other position keeps its character |
| Transposition.SwapCharsInvolutive | src/CouponCode/Generator.php:321-324 | swapping twice restores the string, which the backtracking of `permuteString` relies on |
| Transposition.SwapCharsPermutes | src/CouponCode/Generator.php:331-336 | a swap keeps the multiset of characters |
| Transposition.SwappableVariations | src/CouponCode/Generator.php:293-302 | one variant per neighbouring pair (none for the empty string); variant i is the input with i and i + 1 swapped |
| Transposition.IsSegmentValidWhenSwapped | src/CouponCode/Generator.php:272-291 | true exactly when some neighbouring swap gives a different string that passes the checksum at the same position |
| Transposition.EqualNeighboursHarmless | src/CouponCode/Generator.php:278-280 | a swap of two equal neighbours is skipped, since it gives the segment itself |
| Transposition.TranspositionDetected | src/CouponCode/Generator.php:157 | for a checksum-valid segment that the check lets through, every swap of two different neighbours fails the checksum |
| Permutations.PermuteString | src/CouponCode/Generator.php:309-328 | the result extends the accumulator, adds only rearrangements of the part from i, lists every such rearrangement, and adds no duplicate to a duplicate-free accumulator |
| Permutations.Permute | src/CouponCode/Generator.php:304-307 | every rearrangement of the string appears, nothing else does, and none twice (the property tests/GeneratorTest.php:33-54 checks) |
| Normalization.ToUpper | src/CouponCode/Generator.php:379 | ASCII `strtoupper`; CanonicalIgnoresCase states that validation sees through it, and RenderUpper that it turns a lower-cased code back into the generated one |
| Normalization.ToLower | src/CouponCode/Generator.php:167 | ASCII `strtolower`; CanonicalOfLower and ValidityIgnoresCase state that validation undoes it |
| Normalization.NormalizeCode | src/CouponCode/Generator.php:374-388 | `normalizeCode` with its two options; NormalizeNotLonger, CanonicalIsSymbols, CanonicalFixesSymbols and CanonicalIdempotent state its properties |
| Normalization.Clean | src/CouponCode/Generator.php:385 | the clean-up keeps only characters of `[0-9A-Z]` taken from its input, and never lengthens it |
| Normalization.NormalizeNotLonger | src/CouponCode/Generator.php:374-388 | whatever the options, normalizing never makes a code longer |
| Normalization.CanonicalIsSymbols | src/CouponCode/Generator.php:378-386 | with both options set the output holds alphabet symbols only: no I, O, S, Z, lower-case letter or dash |
| Normalization.CanonicalFixesSymbols | src/CouponCode/Generator.php:374-388 | the strings normalization leaves unchanged are exactly the strings of alphabet symbols |
| Normalization.CanonicalIdempotent | src/CouponCode/Generator.php:374-388 | normalizing twice gives the same as normalizing once |
| Normalization.CanonicalIgnoresCase | src/CouponCode/Generator.php:379 | any one letter may be written in either case without changing the result |
| Normalization.CanonicalConfusable | src/CouponCode/Generator.php:382 | I, O, S and Z in either case stand for 1, 0, 5 and 2 |
| Normalization.CanonicalIgnoresSeparator | src/CouponCode/Generator.php:385 | inserting a dash or any other character outside `[0-9A-Za-z]` does not change the result |
| Text.Substr | src/CouponCode/Generator.php:145 | `substr` yields at most the length asked for; it yields that full length exactly when the slice lies within the string, and then it is that slice |
| Text.Join | src/CouponCode/Generator.php:165 | `implode` with a separator, as used here and at line 347; ExplodeJoin states that splitting at the separator undoes it |
| Text.StrSplit | src/CouponCode/Generator.php:188 | `str_split`, as used here and at line 347: every chunk is 1 to `length` characters long. ConcatStrSplit, StrSplitConcat and StrSplitUpdate state that it cuts the string into chunks and nothing else |
| Text.ExplodeJoin | src/CouponCode/Generator.php:165 | splitting a dash-joined list at the dashes gives the list back when no part holds a dash |
| Text.ConcatStrSplit | src/CouponCode/Generator.php:188 | the chunks of `str_split` put together give the string back |
| Text.StrSplitConcat | src/CouponCode/Generator.php:188 | splitting a concatenation of full-width chunks gives those chunks back |
| Text.StrSplitUpdate | src/CouponCode/Generator.php:188-193 | changing one character of a string changes one character of exactly one of its chunks and leaves the chunk count alone |
| CouponCode.CompileBytesToCodeString | src/CouponCode/Generator.php:356-365 | the stream has one symbol per digest character, and each symbol's value is the character's code modulo 32 |
| CouponCode.LowBits | src/CouponCode/Generator.php:361 | masking with `count - 1 = 31` is taking the remainder modulo 32 |
| CouponCode.HexDigestStream | src/CouponCode/Generator.php:362 | from a hexadecimal digest the stream draws only on 1 to 6 and G to R |
| CouponCode.Scan | src/CouponCode/Generator.php:144-164 | the generation loop as a function of the attempt offset and the segments so far. ScanStep, ScanEnds, ScanSound and ScanFailsOnlyForStream state what it does |
| CouponCode.GeneratedCode | src/CouponCode/Generator.php:135-169 | what `generateCode` returns for a digest. GeneratedSegments, GeneratedCodeShape and GeneratedCodeValidates state its properties |
| CouponCode.ScanStep | src/CouponCode/Generator.php:150-163 | each attempt uses up one slot; a bad or ambiguous candidate is dropped without adding a segment, and any other candidate is appended |
| CouponCode.ScanAdvance | src/CouponCode/Generator.php:150-163 | the step of ScanStep stated for the slot at an offset: a rejected candidate is dropped and any other appended, with the scan one slot further on |
| CouponCode.SliceIsData | src/CouponCode/Generator.php:145-148 | the `substr` of an attempt fails the loop's test exactly when the slot holds no full data slice or holds "0"; otherwise it is the data of the slot |
| CouponCode.SliceCandidate | src/CouponCode/Generator.php:145-148 | the slice of one attempt and the test after it: it reports exhaustion exactly when the slot holds no full data slice or holds "0", and otherwise returns the data of the slot |
| CouponCode.ScanEnds | src/CouponCode/Generator.php:144-148 | the loop returns the segments once there are enough, and fails when the next slot does not hold a full data slice or that slice is "0" |
| CouponCode.ScanSound | src/CouponCode/Generator.php:144-164 | a successful loop keeps the earlier segments in order and ends with exactly the number asked for. Each added segment has the configured length and passes its checksum at its position; it is not a bad word, not ambiguous under a neighbouring swap, and its data are one slot of the stream |
| CouponCode.ScanNeedsStream | src/CouponCode/Generator.php:145-148 | completing the remaining segments needs one stream slot per segment |
| CouponCode.GeneratedNeedsStream | src/CouponCode/Generator.php:145-148 | a successful generation of n segments of length L needs a stream of at least n * L - 1 symbols |
| CouponCode.ScanFailsOnlyForStream | src/CouponCode/Generator.php:147-148 | the only failure of generation is running out of plaintext |
| CouponCode.ExhaustionBoundary | src/CouponCode/Generator.php:144-148 | 1000 segments of 4 from a 128-character digest always fail with "Ran out of plaintext", never a short code |
| CouponCode.ShortSegmentsFail | src/CouponCode/Generator.php:145-148 | with a segment length below 2 any request for a segment fails at once |
| CouponCode.GeneratedSegments | src/CouponCode/Generator.php:144-169 | the segments behind a generated code: exactly as many as asked for, accepted at their positions, made of alphabet symbols, and rendered into the code |
| CouponCode.GeneratedCodeShape | src/CouponCode/Generator.php:165-169 | a generated code, upper-cased and split at its dashes, is exactly the configured number of accepted symbol segments. It is their dash-join, lower-cased exactly when asked |
| CouponCode.GeneratedResistsTransposition | src/CouponCode/Generator.php:157-159 | a generated code, lower-cased or not, read in upper case and split at its dashes: in each of its segments, swapping two different neighbouring characters breaks the checksum at that segment's position. A code generated without lower-casing reads as itself in upper case |
| CouponCode.CodeValidity | src/CouponCode/Generator.php:180-199 | what `validateCode` returns. GeneratedCodeValidates, the Validity lemmas and NormalizeChunkedKeepsCode state its properties |
| CouponCode.CollectSegments | src/CouponCode/Generator.php:142-164 | the `while` loop over `attempt` and `segmentIndex` returns exactly the segments, or the failure, that Scan determines from the start of the stream |
| CouponCode.CompleteCandidate | src/CouponCode/Generator.php:150-159 | the candidate is the data followed by their check digit, and it is rejected exactly when it is a bad word or ambiguous under a neighbouring swap |
| CouponCode.AcceptedResists | src/CouponCode/Generator.php:157-159 | an accepted segment fails its checksum at its position after any swap of two different neighbours |
| CouponCode.CheckSegments | src/CouponCode/Generator.php:190-199 | the loop answers true exactly when every chunk ends with the check digit of the rest at its 1-based position |
| CouponCode.GeneratedCodeValidates | src/CouponCode/Generator.php:135-199 | every generated code, lower-cased or not, validates under the same configuration when the count is at least 0 and the length at least 1 |
| CouponCode.RenderedValidates | src/CouponCode/Generator.php:165-199 | segments of alphabet symbols, all of one length at least 1 and each passing its checksum at its position, validate once dash-joined, lower-cased or not, with their own count and length |
| CouponCode.RoundTripNeedsCount | src/CouponCode/Generator.php:144 | with any negative segment count and any nonzero segment length, lower-cased or not, generation returns "" and validation rejects it |
| CouponCode.ValidityIgnoresCase | src/CouponCode/Generator.php:182 | validation gives the same verdict for a code upper-cased or lower-cased |
| CouponCode.ValidityIgnoresConfusables | src/CouponCode/Generator.php:382 | validation gives the same verdict after an I, O, S or Z is replaced by its digit |
| CouponCode.ValidityIgnoresDashes | src/CouponCode/Generator.php:184-188 | validation gives the same verdict whatever dashes are inserted |
| CouponCode.ValiditySubstitution | src/CouponCode/Generator.php:185-199 | replacing any one symbol of a valid normalized code by a different symbol makes it invalid |
| CouponCode.NormalizeChunked | src/CouponCode/Generator.php:344-348 | the intended `normalize` as a function of the code and the segment length; NormalizeChunkedKeepsCode states its properties |
| CouponCode.NormalizeChunkedKeepsCode | src/CouponCode/Generator.php:344-348 | the dash-chunked normal form has the same canonical text and the same validity as its input, and normalizing it again gives it back |
| CouponCode.NormalizeAsWrittenNeverReturns | src/CouponCode/Generator.php:344-348 | as written, `normalize` never returns, however deep the call stack is allowed to grow |
| CouponCode.ValidateAsWrittenNeverReturns | src/CouponCode/Generator.php:180-182 | as written, `validateCode` never returns, while the intended validation always answers for a segment length of at least 1 |
| CouponCode.Generator.constructor | src/CouponCode/Generator.php:109-116 | the defaults 3 and 4, each replaced by the configured value when the key is present; the encoded denylist |
| CouponCode.Generator.Init | src/CouponCode/Generator.php:94-99 | only non-empty entries (present and not 0) overwrite their fields; the rest of the state is unchanged |
| CouponCode.Generator.GenerateCode | src/CouponCode/Generator.php:135-170 | returns exactly the code, or the failure, that GeneratedCode determines |
| CouponCode.Generator.ValidateCode | src/CouponCode/Generator.php:180-199 | the method returns exactly CodeValidity: false on a length mismatch, a failure for chunk lengths below 1, otherwise whether every chunk checks |
| CouponCode.Generator.Normalize | src/CouponCode/Generator.php:344-348 | the intended `normalize`: it fails exactly when the segment length is below 1 (`str_split` throws). Otherwise the result has the same canonical text and the same validity as the input, and normalizing it again gives it back |

## Left out

- SHA-512 and `random_bytes` (src/CouponCode/Generator.php:139, :362) are not computed. The digest is a parameter of generation.
- The static singleton (`self::$instance` with `generate`, `validate` and the static `init`, src/CouponCode/Generator.php:62-102) is process-global state. Its update of an existing instance is modelled as `Generator.Init`. Its first-call path is the constructor.
- PHP's loose comparison `==` (src/CouponCode/Generator.php:278, :284) is modelled as plain equality. At :284 it compares two single characters, where loose and plain equality agree. At :278 they agree for a hexadecimal digest: its data never contain '0' or 'E', so no two different swaps of a segment read as equal numbers. `GeneratedCode` accepts any digest bytes, though, and for those PHP may read two different strings as equal, such as "0E12" and "0E21" (both the number 0). PHP then skips a swap that the model checks, and may accept a candidate the model rejects.
- Permutations.PermuteString: `in_array` at src/CouponCode/Generator.php:315 compares loosely, so PHP also drops a rearrangement that is a numeric string equal in value to one already collected. The model keeps every distinct string.
- Permutations.Permute: for the same reason PHP returns fewer strings than the model for inputs such as "0e12". There "0e12" equals "0e21", "1e02" equals "01e2" and "2e01" equals "02e1", so PHP returns 21 strings and the model 24.
- CouponCode.Generator.constructor: a key present with the value null (`?? null`) is not modelled. A configuration entry is either absent or an integer.
- Checksum.CheckDigitOf: the accumulator is an unbounded integer. PHP turns it into a float once it passes 2^63, which only very long segments reach.
- `strtoupper`, `strtolower` and `str_rot13` are modelled for ASCII only. Locale and multibyte behaviour are left out.
- `str_split` is modelled as in PHP 8.2 and later, where the empty string gives no chunks.
- The commented-out Perl (src/CouponCode/Generator.php:202-214, :245-261) is not modelled, including its `% 31`.
- `testGenerator` (tests/GeneratorTest.php:59-68) depends on real randomness and is not modelled.
- The symbol value `IndexOf` is computed from character ranges rather than by a map lookup. `IndexOfIsLookup` proves it equal to the lookup in the flipped alphabet.

## Findings

| source | as written | input that shows it | evidently intended | confidence | as-written member | corrected member |
|---|---|---|---|---|---|---|
| src/CouponCode/Generator.php:182, :346 | `validateCode` and `normalize` call `$this->normalize($code, [...])`, the public one-argument method, which calls itself first thing; PHP drops the extra argument, so the recursion never ends | any call of either method, whatever its argument | a call to `normalizeCode($code, ['clean' => true, 'case' => true])` | not executed | CouponCode.NormalizeAsWrittenNeverReturns | CouponCode.NormalizeChunkedKeepsCode |
