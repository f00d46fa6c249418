# Models of piccap's capture service and its portable number, text and sort code

This project models five parts of the repository and proves what they promise.
`dafny verify dfyconfig.toml` checks all of it.

- **Printing and scanning doubles** (`grisu3_print.h`, `grisu3_math.h`,
  `grisu3_parse.h`). `DiyFp`, `DigitGen`, `PowerTable`, `Doubles` and `Grisu`
  follow a double from its bits to its shortest digits: the multiplication, the
  table of cached powers (each entry is proved to be within half a unit), the
  two digit loops and the weeding of the last digit. Nothing is assumed about
  the table or about the scaled boundaries. `DoubleText` is the formatter,
  `DoubleScan` and `DoubleLiterals` the decimal scanner, and `DoublePrint` puts
  them together: whatever is printed without the fallback is scanned whole and
  is nearest to the double that was printed.
- **Sorting and searching FlatBuffers vectors** (`flatbuffers_common_reader.h`).
  `HeapSort` is the sort with children 2i and 2i + 1 from index 0,
  `OffsetVector` the same sort on relative offsets modulo 2^32, `Search` the
  binary search and the scans, `Strings` the string comparisons.
- **Base64** (`pbase64.h`, sections 3.5, 4 and 5 of RFC 4648). `Base64` states
  encoder and decoder on sequences, `Base64Buffers` has the two functions as
  they fill a buffer, `Base64Laws` the laws, and `Base64Values` what the text
  means as a number and what each status says of the input.
- **Integers and type hashes** (`pprintint.h`, `pparseint.h`,
  `flatcc_identifier.h`). `PrintInt` holds the unrolled printers and the compact
  loop, all proved to write the same canonical text; `ParseInt` and `ParseHex`
  the parsers; `TypeHash` the hash, the identifier bytes and the permutation.
- **The capture service** (`service.c`, `unicapture.c`). `Lifecycle` is a machine
  of four threads - main loop, capture, vsync, connection - with one step per
  statement on shared state, interleaved freely; what backends, network and
  clock answer is part of the event. `LifecycleSafety`, `LifecyclePairs` and
  `LifecycleProgress` prove what every run keeps and that every callback returns;
  `LifecycleStarts` and `LifecycleHistory` say exactly when start is called on a
  backend that is not ready for it and whose stop a restart undoes, and `LifecycleLimits` has runs in
  which the code keeps less than one would expect. `CaptureService` has the
  functions themselves, setting fields in place; a ghost history makes each of its
  states a state of some run.

`Arith`, `Reals` and `Decimal` hold the arithmetic that the others share.

Machine words are natural numbers; every wrap-around is written out (`U64`,
`U32`). Shifts and masks on words appear as multiplication, division and
remainder by powers of two; base64 works on 8-bit vectors. Pointers are
positions, and a C function's read-only text is a sequence.

## Where code and documentation disagree

The models follow the code. Each of these has a lemma below.

- `grisu3_parse_double` multiplies by ten for every zero behind the point that
  follows a full 64-bit fraction (`TenTimesTooLarge`); otherwise the decimal is
  within half a unit (`CloseUnlessZerosPassedOver`).
- `grisu3_cast_double_from_diy_fp` flushes subnormals that were normalised
  (`CastKeepsValueIff`, `NormalisedSubnormalIsFlushed`).
- `base64_decode` answers EOK, not EMORE, when whole blocks fill the output
  exactly (`DecodesPart`, `MayBeMore` in `DrainedIsWhole`).
- Spare bits that are set are EDIRTY, not ETAIL as the comment on `base64_decode`
  has it (`FailsIff`).
- Padding does not end a source without a length, unless it fills up eight places:
  `base64_decode` looks at the character behind it (`PaddingEndsIff`).
- `base64_encoded_size` is wrong from 2^62 bytes on (`EncodedSizeIsExact`).
- `parse_integer` misses some overflows (`IntegerRightIff`, `OverflowMissed`);
  `parse_int64` inherits this (`SignedRightIff`, `Int64OverflowMissed`), the
  narrower parsers do not (`SignedIffInRange`).
- `parse_uint64` stores a value although it reports underflow
  (`Uint64StoresOnFailureIff`), as does `parse_hex_uint64`
  (`HexUint64StoresOnFailureIff`), and `parse_hex_integer` does not return its
  input when it reports it unmatched behind 0x (`PrefixIsSwallowedIff`).
- `start` of a backend is called although its re-initialisation failed
  (`EveryRunStartsInitialised`, `StartedUninitialised`), and called again after it
  has failed, without the re-initialisation the interface asks for
  (`EveryFailedStartReopens`, `StartedAgainAfterFailure`); with vsync a capture
  that both threads find gone may be terminated twice (`TerminatedTwice`), but not
  one that only one of them does (`EveryOneSidedRun`).
- A note of a pause outlives what the user does in between: the light sensor and
  the television may restart what the user has stopped, a start by hand may
  outlive a later power-off, and the sensor may start the capture while the
  television is off (`SensorRestartsIff`, `PowerOnResumesIff`, `PowerOffStopsIff`,
  with a run for each in `LifecycleLimits`).

## Model

| member | source | states |
|---|---|---|
| DigitGens.DigitGen | flatccrt/include/flatcc/portable/grisu3_print.h:84-124 | Both loops end; at most 20 characters and `length + kappa` between 1 and 10; whatever it returns, the result is `Generated`: digits only, the number inside the unsafe interval, no multiple of ten steps inside it (shortest), and success exactly when the number is safe and closest for every value within one unit |
| DigitGens.RoundWeed | flatccrt/include/flatcc/portable/grisu3_print.h:67-82 | Without any wrap-around, the last digit is walked down j steps and stays a digit; the answer is 1 exactly when the remainder is nearest for the value shifted by one unit either way and lies between 2 and delta - 4 units |
| DigitGens.TestsCompareDistances | flatccrt/include/flatcc/portable/grisu3_print.h:71-79 | The four uint64 comparisons of weeding say exactly whether one more step is at least as close, or strictly closer |
| DigitGens.WalkEnds | flatccrt/include/flatcc/portable/grisu3_print.h:71-79 | When the walk stops, the verdict of the last two tests is exactly: nearest for both shifted values, and well inside |
| DigitGens.NearestEitherWay | flatccrt/include/flatcc/portable/grisu3_print.h:67-82 | Comparing distances below the upper end of the interval is comparing multiples of the step with the value itself |
| DigitGens.IntegerDigits | flatccrt/include/flatcc/portable/grisu3_print.h:97-108 | The integer loop ends in weeding, or with the whole integer part emitted and the remainder still at least as wide as the interval |
| DigitGens.FractionDigits | flatccrt/include/flatcc/portable/grisu3_print.h:110-123 | The fraction loop always ends in weeding |
| DigitGens.IntegerDigit | flatccrt/include/flatcc/portable/grisu3_print.h:97-108 | One pass of the integer loop keeps digits times step plus remainder equal to the upper end, without wrap-around, and the remainder below the next step |
| DigitGens.IntegerAdvance | flatccrt/include/flatcc/portable/grisu3_print.h:97-108 | After an integer digit either weeding may start with everything it needs, or the loop invariant holds again |
| DigitGens.FractionAdvance | flatccrt/include/flatcc/portable/grisu3_print.h:110-123 | The same for a fraction digit, with value, interval and unit scaled by ten and no product wrapping |
| DigitGens.IntegerStart | flatccrt/include/flatcc/portable/grisu3_print.h:86-95 | The first digit is nonzero and the whole upper end is accounted for before any digit is emitted |
| DigitGens.AtMostNineteen | flatccrt/include/flatcc/portable/grisu3_print.h:110-123 | The fraction loop ends before a twentieth digit |
| DiyFps.MultiplyRounds | flatccrt/include/flatcc/portable/grisu3_math.h:243-256 | The four-product multiplication is floor((x*y + 2^63) / 2^64) and no partial sum overflows, so it is off by at most half a unit |
| DiyFps.Normalize | flatccrt/include/flatcc/portable/grisu3_math.h:258-264 | Ends with bit 63 set and with significand and exponent shifted by the same power of two |
| DiyFps.CastToBits | flatccrt/include/flatcc/portable/grisu3_math.h:275-303 | The two shift loops end and compute `ToBits` |
| DiyFps.CastRoundTrip | flatccrt/include/flatcc/portable/grisu3_math.h:266-303 | Every finite non-negative binary64 survives the cast to a DiyFp and back |
| DiyFps.CastKeepsValueIff | flatccrt/include/flatcc/portable/grisu3_math.h:275-303 | For every 64-bit significand: the cast gives a finite double of the same value if and only if narrowing loses no bit, the narrowed exponent is not below that of the subnormals and the widened one not above that of the largest double |
| DiyFps.PackTooLarge | flatccrt/include/flatcc/portable/grisu3_math.h:297-302 | Past the largest exponent what is packed is not finite, or wraps round to a smaller number |
| DiyFps.NormalisedSubnormalIsFlushed | flatccrt/include/flatcc/portable/grisu3_math.h:275-303 | The smallest subnormal, once normalised, is cast to zero |
| DiyFps.NarrowKeepsValue | flatccrt/include/flatcc/portable/grisu3_math.h:286-289 | Dropping low bits rounds down, and keeps the value exactly when the bits dropped are zero |
| DiyFps.WidenKeepsValue | flatccrt/include/flatcc/portable/grisu3_math.h:293-296 | Shifting the leading bit up keeps the value and stops at the subnormal exponent |
| DiyFps.LargestPow10IsExact | flatccrt/include/flatcc/portable/grisu3_math.h:306-314 | For a number with one of its two top bits set the guess is the power of ten with exactly its digit count |
| PowerTable.EveryRung | flatccrt/include/flatcc/portable/grisu3_math.h:128-218 | Along the ladder of 96-bit significands the error grows by at most one part in 2^93 per rung of eight decades |
| PowerTable.TableIsHalfUnit | flatccrt/include/flatcc/portable/grisu3_math.h:128-218 | Each of the 87 cached significands is within half a unit of the power of ten it stands for |
| PowerTable.CachedPowFits | flatccrt/include/flatcc/portable/grisu3_math.h:220-234 | For every exponent of a normalised double the index is inside the table, and the power found brings the product's exponent into the range digit generation accepts |
| PowerTable.ProductIsNotWhole | flatccrt/include/flatcc/portable/grisu3_math.h:229-229 | For up to 2135 bits the exact product stays at least 0.00045 away from every whole number |
| PowerTable.RoundingKeepsIndex | flatccrt/include/flatcc/portable/grisu3_math.h:220-234 | However factor and product are rounded to binary64, ceiling and index are those of the exact product |
| Doubles.BoundariesAreHalfWay | flatccrt/include/flatcc/portable/grisu3_print.h:132-139 | The upper boundary is half way to the next double, the lower one at least half way to the previous |
| Doubles.BetweenBoundariesIsNearest | flatccrt/include/flatcc/portable/grisu3_print.h:132-139 | A real strictly between the boundaries is nearer to its double than to any other |
| Grisu.BoundariesNormalised | flatccrt/include/flatcc/portable/grisu3_print.h:126-139 | Value and boundaries share the exponent of the upper boundary after the shifts, without losing a bit |
| Grisu.ScaledBoundaries | flatccrt/include/flatcc/portable/grisu3_print.h:141-147 | Scaled by the cached power, they meet the precondition of digit generation |
| Grisu.ShorterDecimalsMiss | flatccrt/include/flatcc/portable/grisu3_print.h:84-124 | No decimal with its last place one further left lies between the exact boundaries, success or not |
| Grisu.SafeDigits | flatccrt/include/flatcc/portable/grisu3_print.h:81-81 | On success the decimal lies strictly between the exact boundaries |
| Grisu.CloserThanAnother | flatccrt/include/flatcc/portable/grisu3_print.h:67-82 | On success no other decimal of the same length between the boundaries is closer to the exact value |
| Grisu.Grisu3 | flatccrt/include/flatcc/portable/grisu3_print.h:126-153 | For every positive finite double: at most 17 digits, none shorter fits; on success the decimal reads back as the double and is the closest of its length; and it does succeed, with exactly that decimal, wherever one is clear: 4 grains inside the lower and 2 inside the upper boundary, every other of its place near them farther from the double by 4, none near that ends a place earlier, a grain being 2^-61 of the double |
| Grisu.ClearIsFound | flatccrt/include/flatcc/portable/grisu3_print.h:67-82 | At its place a clear decimal is the one the digit generator is left with, and weeding accepts it |
| Grisu.SamePlace | flatccrt/include/flatcc/portable/grisu3_print.h:97-123 | The digit loops stop neither before nor behind the place of a clear decimal |
| Grisu.FartherAtScale | flatccrt/include/flatcc/portable/grisu3_print.h:67-82 | Farther by four grains is farther, at scale, from the value shifted by one unit either way |
| Grisu.ClearSucceeds | flatccrt/include/flatcc/portable/grisu3_print.h:84-124 | So where some decimal is clear, success is reported with that decimal |
| DoubleText.IToStr | flatccrt/include/flatcc/portable/grisu3_print.h:155-182 | Writes minus and canonical numeral, terminates it, and touches nothing else |
| DoubleText.ReverseSpan | flatccrt/include/flatcc/portable/grisu3_print.h:174-179 | Turns the digits around by swapping from both ends |
| DoubleText.LayZeroPrefix | flatccrt/include/flatcc/portable/grisu3_print.h:236-244 | The digits move behind 0. and zeros; nothing else changes |
| DoubleText.LayPoint | flatccrt/include/flatcc/portable/grisu3_print.h:245-252 | The last decimals move right by one and a point takes their place |
| DoubleText.LayZeros | flatccrt/include/flatcc/portable/grisu3_print.h:256-256 | Zeros are appended instead of an exponent |
| DoubleText.LayoutFits | flatccrt/include/flatcc/portable/grisu3_print.h:53-65 | Every layout of up to 17 digits with an exponent below 1000 takes at most 23 characters, so sign and terminator fit in 30 |
| DoubleText.Layout | flatccrt/include/flatcc/portable/grisu3_print.h:228-258 | The digits in the buffer become the text of one of the four layouts, terminated, with the sign in front left alone |
| DoubleText.NotationIff | flatccrt/include/flatcc/portable/grisu3_print.h:228-256 | An exponent is written if and only if more than two zeros would stand behind the digits or three or more places of zeros in front; a point for every fraction, unless one digit and an exponent do |
| DoubleText.ShapeOfLayout | flatccrt/include/flatcc/portable/grisu3_print.h:228-256 | With an exponent one digit stands in front of the point; without one the text is no longer than its digits, its zeros and the point need |
| DoublePrint.LayoutIsLiteral | flatccrt/include/flatcc/portable/grisu3_print.h:228-256 | Each layout is a well-formed number: integer part, fraction, exponent |
| DoublePrint.LiteralDenotes | flatccrt/include/flatcc/portable/grisu3_print.h:228-256 | That number is the digits times ten to the exponent, whichever layout was chosen |
| DoublePrint.LayoutScansBack | flatccrt/include/flatcc/portable/grisu3_parse.h:400-576 | For any digit string of 1 to 17 digits and any exponent below 1000 in size, the text is consumed whole by the scanner, with its sign, and denotes exactly digits * 10^exponent |
| DoublePrint.ShortestReadsBack | flatccrt/include/flatcc/portable/grisu3_print.h:126-153 | The decimal of a successful conversion is nearer to its double than to any other: a correctly rounding reader gets it back |
| DoublePrint.ClearIsPrinted | flatccrt/include/flatcc/portable/grisu3_print.h:203-259 | Where some decimal is clear, its canonical numeral is laid out behind the sign, without falling back |
| DoublePrint.OneTenthIsClear | flatccrt/include/flatcc/portable/grisu3_print.h:203-259 | Such as one tenth, which is therefore printed as 0.1 |
| DoublePrint.HexTextReads | flatccrt/include/flatcc/portable/grisu3_print.h:184-201 | The digits of a NaN are capital hexadecimal digits, and read as a number they are its bits |
| DoublePrint.NanBitsParse | flatccrt/include/flatcc/portable/pparseint.h:126-202 | Behind 0x they are parsed back to those bits |
| DoublePrint.PrintNan | flatccrt/include/flatcc/portable/grisu3_print.h:184-201 | NaN( and the sixteen hexadecimal digits, most significant first, and ) |
| DoublePrint.PrintDouble | flatccrt/include/flatcc/portable/grisu3_print.h:203-259 | Not a number, infinity and zero have their fixed texts with sign; every other double either falls back or is printed as at most 24 characters that scan back whole, with its sign, to a decimal nearest to it; where some decimal is clear it does not fall back, and prints that one |
| DoubleScan.ScanInteger | flatccrt/include/flatcc/portable/grisu3_parse.h:454-483 | The accumulation and the two skipping loops compute `IntegerDigits` |
| DoubleScan.ScanFraction | flatccrt/include/flatcc/portable/grisu3_parse.h:484-514 | The loops behind the point compute `FractionPart`, a half-unit error noted at most once |
| DoubleScan.ScanExponent | flatccrt/include/flatcc/portable/grisu3_parse.h:521-554 | The exponent loop computes `ExponentPart`, with the three ways to be malformed |
| DoubleScan.ParseDouble | flatccrt/include/flatcc/portable/grisu3_parse.h:400-576 | The whole scan up to the conversion computes `ScanText`: sign, fraction, exponent, fraction exponent, error flag, end, and the failures |
| DoubleLiterals.AccumulateTakes | flatccrt/include/flatcc/portable/grisu3_parse.h:461-468 | The loop takes exactly as many digits as fill the fraction and holds their value |
| DoubleLiterals.ExponentIsValue | flatccrt/include/flatcc/portable/grisu3_parse.h:541-552 | Exponents up to 32767 are read exactly; larger ones stay larger than that |
| DoubleLiterals.AllTaken | flatccrt/include/flatcc/portable/grisu3_parse.h:461-468 | No digit is left out exactly when the digits denote less than 18446744073709551610 |
| DoubleLiterals.ScanLiteral | flatccrt/include/flatcc/portable/grisu3_parse.h:400-576 | Every well-formed number of up to 1000 characters, before anything that does not continue it, is accepted whole; fraction and exponent account for every digit taken, rounded or passed over |
| DoubleLiterals.AcceptedIsLiteral | flatccrt/include/flatcc/portable/grisu3_parse.h:400-576 | Conversely, whatever text is accepted as a decimal number is a well-formed number up to where the scan ends, within the given length, and what follows does not continue it |
| DoubleLiterals.EveryTextIsDecided | flatccrt/include/flatcc/portable/grisu3_parse.h:400-576 | Over every readable text: handed back exactly when its first character is neither a minus nor a digit, or when it starts with 0x; a number exactly when it starts with a well-formed one in view; and otherwise an error |
| DoubleLiterals.CloseUnlessZerosPassedOver | flatccrt/include/flatcc/portable/grisu3_parse.h:491-514 | The reported decimal is within half a unit of the number written if and only if no zero behind the point follows a full fraction |
| DoubleLiterals.PassedOverIsVisible | flatccrt/include/flatcc/portable/grisu3_parse.h:503-506 | That is the case exactly when the first digit behind the point that is not taken is a zero |
| DoubleLiterals.TenTimesTooLarge | flatccrt/include/flatcc/portable/grisu3_parse.h:503-506 | 1844674407370955161.0 is reported as ten times its value |
| Base64.SymbolClass | flatccrt/include/flatcc/portable/pbase64.h:154-157 | Decoding table after encoding alphabet is the identity on 6-bit values, spaces skipped or not |
| Base64.ClassSymbol | flatccrt/include/flatcc/portable/pbase64.h:250-326 | The other way round: no character outside the alphabet decodes to a value |
| Base64.BitsOut | flatccrt/include/flatcc/portable/pbase64.h:187-190 | The shifts of the encoder are undone by those of the decoder, and the spare bits of a tail are zero |
| Base64.BitsIn | flatccrt/include/flatcc/portable/pbase64.h:387-389 | The shifts of the decoder are undone by those of the encoder when the spare bits are zero |
| Base64Buffers.Encode | flatccrt/include/flatcc/portable/pbase64.h:152-228 | Errors for a missing length and an unknown mode; else the destination holds exactly the encoding, nothing behind it is touched, and all input is consumed |
| Base64Buffers.ReadGroup | flatccrt/include/flatcc/portable/pbase64.h:356-383 | The inner loop, whose index may wrap below zero and back, reads the group the specification reads and stays inside the input or before its terminator |
| Base64Buffers.Decode | flatccrt/include/flatcc/portable/pbase64.h:230-442 | Status, output bytes and consumed length are those of the specification, nothing behind the output is touched, and the output fits |
| Base64Buffers.TerminatorEnds | flatccrt/include/flatcc/portable/pbase64.h:352-383 | A source without a length is never left if it holds a character outside the alphabet |
| Base64Buffers.PaddingEndsIff | flatccrt/include/flatcc/portable/pbase64.h:370-379 | Padding alone keeps the decoder inside a source without a length if and only if it fills up the eighth place of its group; a single padding character does not |
| Base64Buffers.PlainModes | flatccrt/include/flatcc/portable/pbase64.h:30-47 | Mode 0 is the standard alphabet, mode 1 the URL safe one, both without padding and without skipping |
| Base64Buffers.SkipFlag | flatccrt/include/flatcc/portable/pbase64.h:39-47 | Adding 32 to a mode adds skipping spaces, and nothing else |
| Base64Buffers.PadFlag | flatccrt/include/flatcc/portable/pbase64.h:39-47 | Adding 128 adds padding, and nothing else |
| Base64Buffers.ModesAreThese | flatccrt/include/flatcc/portable/pbase64.h:170-180 | A mode is known if and only if it is one of these with any of the three modifier bits |
| Base64Buffers.NoLimit | flatccrt/include/flatcc/portable/pbase64.h:352-354 | An output length of zero is no limit, and without a limit the answer is never EMORE |
| Base64Values.EveryStatus | flatccrt/include/flatcc/portable/pbase64.h:352-442 | For every input, position and limit, by the digits of the input up to padding, a foreign character or the end: EMORE if and only if the limit is below the bytes they make and no multiple of three; ETAIL and EDIRTY if and only if the limit goes past the whole groups and the last group is one digit, or two or three with a spare bit set; and how many bytes are written |
| Base64Values.FailsIff | flatccrt/include/flatcc/portable/pbase64.h:408-435 | With room to spare: ETAIL exactly when the digits number 1 modulo 4, EDIRTY exactly when they number 2 or 3 with nonzero spare bits, EMORE never |
| Base64Values.MoreMeansMore | flatccrt/include/flatcc/portable/pbase64.h:436-441 | EMORE only if more room gives more bytes |
| Base64Values.DecodesTheNumber | flatccrt/include/flatcc/portable/pbase64.h:387-389 | Digits in base 64 and bytes in base 256 write the same number, whatever the limit and however decoding ends |
| Base64Values.StopsBetweenGroups | flatccrt/include/flatcc/portable/pbase64.h:395-440 | Where decoding fails or may be resumed, the digits from there on are exactly those not decoded |
| Base64Values.EncodingSpellsTheNumber | flatccrt/include/flatcc/portable/pbase64.h:152-228 | An encoding is the number of its bytes in base 64, most significant digit first, in the letters of the alphabet, padded with = to a multiple of four if that is asked for |
| Base64Values.SymbolIsLetter | flatccrt/include/flatcc/portable/pbase64.h:154-157 | The symbols are the letters of the two alphabets in their order |
| Base64Values.ClassMeans | flatccrt/include/flatcc/portable/pbase64.h:250-326 | A character is a digit if and only if it is a letter of the alphabet, padding if and only if it is =, skipped if and only if it is blank, CR or LF and skipping is on |
| Base64Values.DecodedSizeIsExact | flatccrt/include/flatcc/portable/pbase64.h:135-150 | `base64_decoded_size` is exact for what was encoded without padding |
| Base64Laws.RoundTrip | flatccrt/include/flatcc/portable/pbase64.h:152-442 | In both alphabets, padded or not, skipping spaces or not, decoding an encoding gives the bytes back and consumes all of it, from any buffer with room and before any terminator |
| Base64Laws.AcceptedIffCanonical | flatccrt/include/flatcc/portable/pbase64.h:352-442 | With room to spare, an input is consumed whole without error exactly when it is the unpadded encoding of the output followed by padding that fits its group |
| Base64Laws.PaddedIsUnpadded | flatccrt/include/flatcc/portable/pbase64.h:196-218 | Padding adds exactly the characters that fill the last group |
| Base64Laws.EncodedSizeIsExact | flatccrt/include/flatcc/portable/pbase64.h:114-133 | `base64_encoded_size` is the length of the encoding if and only if the input is shorter than 2^62 bytes |
| Base64Laws.DecodedFits | flatccrt/include/flatcc/portable/pbase64.h:135-150 | No input decodes to more than `base64_decoded_size` says, padding and spaces included |
| Base64Laws.DecodesPart | flatccrt/include/flatcc/portable/pbase64.h:352-442 | Whatever the input, with less room than its bytes need: the whole blocks that fit, with EMORE, or with EOK exactly when the room is a multiple of three |
| Base64Laws.CanonicalPart | flatccrt/include/flatcc/portable/pbase64.h:352-442 | Of an encoding, with or without padding, that is a number of whole groups consumed |
| Base64Laws.Resumes | flatccrt/include/flatcc/portable/pbase64.h:352-442 | For every input and limit: the result of more room, or a stop at a block boundary after which decoding the rest gives exactly what was missing, with the same final status |
| Base64Laws.SuffixDecodes | flatccrt/include/flatcc/portable/pbase64.h:352-442 | Resuming with a pointer to the rest is resuming at that position |
| Base64Laws.EnoughRoom | flatccrt/include/flatcc/portable/pbase64.h:352-354 | A limit above the decoded size is no limit |
| Base64Laws.DrainedIsWhole | flatccrt/include/flatcc/portable/pbase64.h:85-91 | Draining through buffers of any sizes gives the bytes, status and end of one unlimited call |
| Base64Laws.SkippingIsRemoving | flatccrt/include/flatcc/portable/pbase64.h:363-368 | Skipping spaces gives status and bytes of the same input with blank, CR and LF removed, wherever they stand, at every limit |
| HeapSort.SiftDownInPlace | fbs/flatbuffers_common_reader.h:377-399 | The loop ends although node 0 is its own child, and computes `SiftDown` |
| HeapSort.SiftDownMends | fbs/flatbuffers_common_reader.h:377-399 | Sifting down restores the heap with children 2i and 2i + 1 at the one node where it was broken |
| HeapSort.HeapifyMakesHeap | fbs/flatbuffers_common_reader.h:400-403 | The first phase, down to and including node 0, makes a heap |
| HeapSort.FirstIsLast | fbs/flatbuffers_common_reader.h:376-406 | Nothing in the heap sorts after node 0 |
| HeapSort.DrainSorts | fbs/flatbuffers_common_reader.h:404-406 | The second phase leaves the vector ascending |
| HeapSort.SortPermutes | fbs/flatbuffers_common_reader.h:376-406 | The result is a permutation of the input, even if the comparison is no order |
| HeapSort.SortSorts | fbs/flatbuffers_common_reader.h:376-406 | For every order with ties: ascending, and a permutation |
| HeapSort.HeapSortInPlace | fbs/flatbuffers_common_reader.h:400-406 | Sorting in place computes `Sorted`, for vectors of scalars or structs of any length |
| OffsetVector.SlotsAreWords | fbs/flatbuffers_common_reader.h:419-419 | Neighbouring slots are four bytes apart |
| OffsetVector.SwapExchangesTargets | fbs/flatbuffers_common_reader.h:417-423 | Modulo 2^32 a swap of relative offsets exchanges the two targets and moves no other |
| OffsetVector.SwapIsExactIff | fbs/flatbuffers_common_reader.h:417-423 | It exchanges them exactly if and only if each target lies at or past its new slot and less than 2^32 beyond |
| OffsetVector.OffsetSwap | fbs/flatbuffers_common_reader.h:417-423 | The swap in place computes `SwappedOffsets` |
| OffsetVector.SortOffsets | fbs/flatbuffers_common_reader.h:376-427 | When every target can be named from every slot, sorting in place leaves the addresses exactly as sorting them would, and no offset wraps |
| OffsetVector.SortedOffsets | fbs/flatbuffers_common_reader.h:376-427 | So the references are permuted and ascending by what they refer to |
| Search.Find | fbs/flatbuffers_common_reader.h:235-254 | On a vector partitioned by the key, binary search answers as a forward scan; on any vector, what it finds matches |
| Search.ScanIsLowest | fbs/flatbuffers_common_reader.h:283-292 | The forward scan finds the lowest match, or there is none |
| Search.ScanBackIsHighest | fbs/flatbuffers_common_reader.h:293-302 | The backward scan finds the highest match, or there is none |
| Search.ScanForward | fbs/flatbuffers_common_reader.h:283-292 | The loop computes `Scan` |
| Search.ScanBackward | fbs/flatbuffers_common_reader.h:293-302 | The loop computes `ScanBack` |
| Search.ScanRange | fbs/flatbuffers_common_reader.h:327-328 | Scanning a range that may reach past the end finds the lowest match inside range and vector, or none exactly if there is none |
| Search.ScanRangeBack | fbs/flatbuffers_common_reader.h:331-332 | And backward the highest |
| Search.ScansAgree | fbs/flatbuffers_common_reader.h:283-302 | Both directions find something or neither does, the first not behind the last |
| Search.SortedFindsMatches | fbs/flatbuffers_common_reader.h:235-254 | A sorted vector is partitioned by every key, and has a match exactly when the unsorted one had |
| Search.SortThenFind | fbs/flatbuffers_common_reader.h:235-406 | Sort then find: the lowest match of the sorted vector, and a match exactly when the input held one |
| Search.ScalarsOrder | fbs/flatbuffers_common_reader.h:227-227 | Comparing scalars is an order, and find's comparison respects it |
| Search.ScalarsAscend | fbs/flatbuffers_common_reader.h:376-414 | Sorting any integers leaves the same integers, none in front of a smaller one |
| Search.ScalarScanIsLowest | fbs/flatbuffers_common_reader.h:283-292 | A scan finds the lowest index that holds the number, or none exactly if none does; and ascending integers are ready for binary search |
| Search.SortScalars | fbs/flatbuffers_common_reader.h:376-414 | Sorting in place leaves `a[i] <= a[j]` for i below j, and the same integers |
| Search.FindScalar | fbs/flatbuffers_common_reader.h:235-256 | On ascending integers binary search finds the lowest index that holds the key, or none exactly if none does |
| Search.SortThenFindScalar | fbs/flatbuffers_common_reader.h:235-414 | Sort, then find: the lowest index of the key, and none exactly if it was not in the input |
| Strings.LengthBreaksTies | fbs/flatbuffers_common_reader.h:228-232 | The comparison of sort is the comparison of find, ties broken by length |
| Strings.SameOrderWhenNulFree | fbs/flatbuffers_common_reader.h:228-232 | On strings without NULs they are one comparison, zero exactly on equal strings |
| Strings.OrdersPartIff | fbs/flatbuffers_common_reader.h:228-232 | In general they part exactly on strings of unequal length that are the same up to their first NUL |
| Strings.EmbeddedNul | fbs/flatbuffers_common_reader.h:228-232 | As on a and a followed by a NUL |
| Strings.FindComparesWords | fbs/flatbuffers_common_reader.h:232-232 | Find's comparison is decided by the first character in which the two differ, and zero exactly if they read alike up to the first NUL |
| Strings.SortComparesWords | fbs/flatbuffers_common_reader.h:228-230 | So is the comparison of sort, with strings that read alike ordered by length |
| Strings.WordsAscend | fbs/flatbuffers_common_reader.h:376-427 | A sorted vector of strings is in dictionary order |
| Strings.BeforeOrders | fbs/flatbuffers_common_reader.h:228-230 | The comparison of sort is an order with ties |
| Strings.BeforeRespects | fbs/flatbuffers_common_reader.h:255-260 | Both comparisons of find respect it, embedded NULs included |
| Strings.RefsOrder | fbs/flatbuffers_common_reader.h:415-427 | So does comparing references by the strings they lead to |
| Strings.SortThenFindString | fbs/flatbuffers_common_reader.h:235-427 | Sorting a string vector in place and searching it leaves the same strings in dictionary order and finds the lowest that reads like the key, exactly when there is one |
| PrintInt.PairAt | flatccrt/include/flatcc/portable/pprintint.h:111-116 | The table holds the two digits of every number below 100 |
| PrintInt.PrintStage | flatccrt/include/flatcc/portable/pprintint.h:118-122 | A stage moves two digits from the number to the text and leaves the rest of the numeral to come |
| PrintInt.Count16IsRight | flatccrt/include/flatcc/portable/pprintint.h:170-184 | The comparisons find the number of digits |
| PrintInt.Count32IsRight | flatccrt/include/flatcc/portable/pprintint.h:217-248 | The comparisons find the number of digits |
| PrintInt.Count64IsRight | flatccrt/include/flatcc/portable/pprintint.h:302-337 | The comparisons find the number of digits, from ten to twenty |
| PrintInt.PrintUint8 | flatccrt/include/flatcc/portable/pprintint.h:143-163 | Canonical numeral, its length, a terminator, and nothing else touched |
| PrintInt.PrintUint16 | flatccrt/include/flatcc/portable/pprintint.h:165-210 | Canonical numeral, its length, a terminator, and nothing else touched |
| PrintInt.PrintUint32 | flatccrt/include/flatcc/portable/pprintint.h:212-291 | Canonical numeral, its length, a terminator, and nothing else touched |
| PrintInt.PrintHigh | flatccrt/include/flatcc/portable/pprintint.h:342-381 | The unrolled stages leave exactly eight digits to write, whatever the length |
| PrintInt.PrintUint64 | flatccrt/include/flatcc/portable/pprintint.h:293-385 | Canonical numeral, its length, a terminator, and nothing else touched: the same text as the compact loop writes |
| PrintInt.PrintSimple | flatccrt/include/flatcc/portable/pprintint.h:431-457 | The compact loop stays inside its 20-character temporary and leaves the same text, length and terminator |
| PrintInt.PrintInt8 | flatccrt/include/flatcc/portable/pprintint.h:387-396 | Minus and numeral for every value, the minimum included |
| PrintInt.PrintInt16 | flatccrt/include/flatcc/portable/pprintint.h:398-407 | Minus and numeral for every value, the minimum included |
| PrintInt.PrintInt32 | flatccrt/include/flatcc/portable/pprintint.h:409-418 | Minus and numeral for every value, the minimum included |
| PrintInt.PrintInt64 | flatccrt/include/flatcc/portable/pprintint.h:420-429 | Minus and numeral for every value, the minimum included, within 21 characters |
| PrintInt.NegatedMagnitude | flatccrt/include/flatcc/portable/pprintint.h:391-395 | Negating in two's complement and converting to unsigned gives the magnitude, of the minimum too |
| ParseInt.ParseIntegerLoop | flatccrt/include/flatcc/portable/pparseint.h:77-120 | The loop computes `ParseInteger`: every status, end and stored value |
| ParseInt.RunKeepsResidue | flatccrt/include/flatcc/portable/pparseint.h:93-101 | The word holds the value of the digits modulo 2^64, and reading stops exactly when a prefix drops |
| ParseInt.ParseNumeral | flatccrt/include/flatcc/portable/pparseint.h:77-120 | A numeral is accepted if and only if the residues of its prefixes never drop and nothing bad follows; the value stored is the residue |
| ParseInt.ParseIsExact | flatccrt/include/flatcc/portable/pparseint.h:77-120 | Below 2^64 the value is exact; whatever is stored is congruent to the numeral modulo 2^64 |
| ParseInt.SmallIsExact | flatccrt/include/flatcc/portable/pparseint.h:94-99 | A result below 1844674407370955160 has not wrapped |
| ParseInt.OverflowMissed | flatccrt/include/flatcc/portable/pparseint.h:94-99 | An input on which `parse_integer` is wrong: 30000000000000000000 is stored as 11553255926290448384 |
| ParseInt.UnsignedIffInRange | flatccrt/include/flatcc/portable/pparseint.h:204-227 | For types of up to 32 bits an unsigned parser accepts exactly the numbers in range, and stores them exactly |
| ParseInt.SignedIffInRange | flatccrt/include/flatcc/portable/pparseint.h:259-288 | The same for signed parsers |
| ParseInt.SignedInRange | flatccrt/include/flatcc/portable/pparseint.h:259-288 | Every number in the range of a signed type, 64 bits included, is parsed exactly |
| ParseInt.SignedStoresIff | flatccrt/include/flatcc/portable/pparseint.h:259-288 | A signed parser of any width stores exactly when no prefix drops and the residue is in range, and then the residue |
| ParseInt.SignedRightIff | flatccrt/include/flatcc/portable/pparseint.h:259-288 | Up to 64 bits the answer is right - the number if it is in range, else nothing - if and only if the numeral is in range, or a prefix drops, or the residue is out of range too |
| ParseInt.IntegerRightIff | flatccrt/include/flatcc/portable/pparseint.h:77-120 | `parse_integer` stores the numeral below 2^64 and else nothing if and only if it is below 2^64 or a prefix drops |
| ParseInt.Int64OverflowMissed | flatccrt/include/flatcc/portable/pparseint.h:259-288 | An input on which `parse_int64` is wrong: 25000000000000000000 is stored as 6553255926290448384 |
| ParseInt.Uint64StoresOnUnderflow | flatccrt/include/flatcc/portable/pparseint.h:322-330 | On a numeral `parse_uint64` fails and stores all the same if and only if it is negative, no prefix drops and nothing bad follows; then it is underflow, with the residue stored |
| ParseInt.Uint64StoresOnFailureIff | flatccrt/include/flatcc/portable/pparseint.h:322-330 | Over every text: it fails with the value changed if and only if the text starts with such a numeral |
| ParseInt.IntegerOnEveryText | flatccrt/include/flatcc/portable/pparseint.h:77-120 | Over every text: END exactly if it is empty and UNMATCHED exactly if its first character is neither a minus nor a digit, both with the pointer where it was; INVALID exactly if a minus has no digit or an undropped numeral meets a bad end; OVERFLOW and UNDERFLOW exactly if a prefix drops; nothing stored by any of them |
| ParseInt.TypedOnEveryText | flatccrt/include/flatcc/portable/pparseint.h:204-330 | The typed parsers refuse the same texts in the same way, and report a limit exceeded exactly by sign, residue and limit |
| ParseInt.SignedRoundTrip | flatccrt/include/flatcc/portable/pparseint.h:259-288 | Parsing what was printed for a signed number returns it, the minimum included, before anything that does not continue it |
| ParseInt.UnsignedRoundTrip | flatccrt/include/flatcc/portable/pparseint.h:204-227 | Parsing what was printed for an unsigned number returns it, by `parse_integer`, `parse_uint64` and the parser of its width |
| ParseHex.ParseHexLoop | flatccrt/include/flatcc/portable/pparseint.h:126-202 | The loop computes `ParseHex`: every status, end and stored value |
| ParseHex.HexIsExact | flatccrt/include/flatcc/portable/pparseint.h:126-202 | Up to sixteen hexadecimal digits are read exactly unless a point or p follows; a seventeenth is an overflow whatever its value |
| ParseHex.BadEnds | flatccrt/include/flatcc/portable/pparseint.h:186-196 | What spoils the digits is a point, p or P - and, behind sixteen digits, the control character that setting bit 5 turns into a point |
| ParseHex.PrefixIsSwallowedIff | flatccrt/include/flatcc/portable/pparseint.h:126-202 | Over every text: unmatched with the pointer moved if and only if it is 0x, without a minus, at the end or before something that is no digit; the pointer is then past it |
| ParseHex.PrefixIsSwallowed | flatccrt/include/flatcc/portable/pparseint.h:167-176 | Such as 0xg |
| ParseHex.HexTypedIffInRange | flatccrt/include/flatcc/portable/pparseint.h:231-320 | The typed hexadecimal parsers store exactly the numbers in range written with at most sixteen digits, 64-bit types included |
| ParseHex.HexUint64StoresOnFailureIff | flatccrt/include/flatcc/portable/pparseint.h:332-340 | Over every text: `parse_hex_uint64` fails with the value changed if and only if the text is a minus, 0x, up to sixteen digits and no bad end |
| ParseHex.HexOnEveryText | flatccrt/include/flatcc/portable/pparseint.h:126-202 | Over every text: END, UNMATCHED, INVALID, OVERFLOW and UNDERFLOW are each decided by sign, prefix, digits and what follows them, with pointer and stored value |
| ParseHex.HexTypedOnEveryText | flatccrt/include/flatcc/portable/pparseint.h:231-340 | The typed parsers refuse the same texts in the same way, and report a limit exceeded exactly by sign, value and limit |
| TypeHash.FoldUndoesItself | flatccrt/include/flatcc/flatcc_identifier.h:129-131 | Exclusive-or with the upper half is its own inverse |
| TypeHash.FoldIsByHalves | flatccrt/include/flatcc/flatcc_identifier.h:129-131 | It brings the upper sixteen bits down onto the lower ones and leaves them in place |
| TypeHash.MultiplierInverts | flatccrt/include/flatcc/flatcc_identifier.h:129-130 | The odd multiplier has an inverse modulo 2^32 |
| TypeHash.DisperseIsPermutation | flatccrt/include/flatcc/flatcc_identifier.h:113-133 | Dispersing is a permutation of the 32-bit values, its inverse given |
| TypeHash.HashFromName | flatccrt/include/flatcc/flatcc_identifier.h:41-52 | The loop computes the FNV-1a hash, and never returns the reserved zero |
| TypeHash.OneCharacterApart | flatccrt/include/flatcc/flatcc_identifier.h:41-52 | Names that differ in one character, signed or unsigned, never hash alike before zero is replaced |
| TypeHash.XorIsMachineXor | flatccrt/include/flatcc/flatcc_identifier.h:46-46 | On bytes the exclusive or of the model is that of the machine |
| TypeHash.HeaderHashes | fbs/hyperion_request_reader.h:74-75 | The names of the two root types hash to the numbers and identifiers of the generated headers: 0x5aeb78cb for the request, 0x39df98ba for the reply |
| TypeHash.IdentifierFromTypeHash | flatccrt/include/flatcc/flatcc_identifier.h:60-69 | The four bytes written are those of the hash, least significant first, and lead back to it |
| TypeHash.IdentifierRoundTrip | flatccrt/include/flatcc/flatcc_identifier.h:60-78 | Hash to bytes to hash and bytes to hash to bytes are the identity |
| TypeHash.StringReadingIff | flatccrt/include/flatcc/flatcc_identifier.h:85-99 | Reading an identifier as a C string gives the same hash exactly when nothing stands behind its first NUL |
| TypeHash.BehindNulIsIgnored | flatccrt/include/flatcc/flatcc_identifier.h:85-99 | What stands behind the first NUL is read as if it were NUL too |
| LifecycleSafety.ThreadsKept | src/service.c:180-222 | Every step of every thread keeps: flags and living threads agree with the place of the main thread, the vsync thread lives inside the capture thread, created and joined differ by those alive |
| LifecycleSafety.ConnectedIff | src/service.c:27-68 | In every run the service connects exactly when the connection thread polls, video or UI capture runs, and the server answers; and it disconnects exactly behind the reading loop |
| LifecyclePairs.UiKept | src/unicapture.c:112-372 | Every step keeps the calls into the UI backend paired: init, cleanup, start, terminate |
| LifecyclePairs.VideoKept | src/unicapture.c:86-372 | The same for the video backend, by every step that does not tell the other of the two threads that the capture is gone |
| LifecyclePairs.LifeKept | src/unicapture.c:112-372 | With vsync or without, init and cleanup of the video backend stay paired |
| LifecyclePairs.EveryRun | src/service.c:96-222 | After any sequence of callbacks, interleavings and answers: between callbacks service, capture and connection flags and threads agree and every finished thread has been joined once; the shared state is reset and the process exits only with no thread alive and both backends given back |
| LifecyclePairs.EveryOneSidedRun | src/unicapture.c:86-372 | With vsync or without, in every run in which only the capture thread or only the vsync thread is told that the video capture is gone, each successful start is terminated exactly once before cleanup |
| LifecyclePairs.EveryUnsyncedRun | src/unicapture.c:112-372 | In every run without vsync each successful start of the video capture is terminated exactly once before cleanup |
| LifecycleProgress.HelpHelps | src/service.c:209-222 | Inside a callback no step of any thread and no answer takes the callback farther from its end, and every step of the thread that is waited for brings it nearer, whatever is answered - the condition wait of the capture thread included |
| LifecycleProgress.EveryFairRunReturns | src/service.c:209-222 | From every state that any run leads to, on every schedule that gives each thread its turn again and again, and whatever backends, network and clock answer, the callback returns |
| LifecycleProgress.NoDeadlock | src/unicapture.c:184-186 | Such as on the schedule that takes the threads in turn, for any sequence of answers: neither the joins nor the condition wait can deadlock |
| LifecycleStarts.EveryRunStartsInitialised | src/unicapture.c:118-178 | Over every run, for each of the two backends, with vsync or without: every call of start, working or not, finds the backend initialised if and only if no call is made in a life of the capture thread whose re-initialisation failed |
| LifecycleStarts.EveryFailedStartReopens | src/unicapture.h:41-43 | Over every run: after every failed start the backend is initialised again before start is called again, if and only if no call follows a failed one in the same life of the capture thread, nor in a later one while every re-initialisation in between fails |
| LifecycleStarts.StepTells | src/unicapture.c:118-178 | Every step of every thread keeps the record of inits, cleanups and calls of start in line with the flags; at a call, being initialised is not having failed to re-initialise, and owing an init is having failed to start |
| LifecycleHistory.HistoryKept | src/service.c:384-743 | Every callback and every step keeps the pause flags, the running flag and the history of starts and stops in line |
| LifecycleHistory.NotesAreExact | src/service.c:384-743 | Between two callbacks of any run `lumen_paused` and `power_paused` are set exactly while the last thing the sensor or the power callback did was a stop, and running is having been started and not stopped since |
| LifecycleHistory.OwnPauseIff | src/service.c:384-743 | While a pause is open and nothing runs, its owner stopped last exactly when nobody has started the capture since |
| LifecycleHistory.SensorRestartsIff | src/service.c:724-743 | In any run a dark room starts the capture exactly when it is down with the sensor's pause open and no power pause open; that undoes the last stop if and only if nobody has started it since that pause; a television that is off prevents it if and only if switching off was noted |
| LifecycleHistory.PowerOffStopsIff | src/service.c:421-425 | In any run switching the television off stops the capture exactly when it runs and no earlier power pause is open, and else does nothing |
| LifecycleHistory.PowerOnResumesIff | src/service.c:413-419 | In any run switching it on resumes exactly when the capture is down, a power pause is open and there is something to capture; that undoes the last stop if and only if nobody has started it since that pause |
| LifecycleLimits.StartedUninitialised | src/unicapture.c:118-127 | After a failed re-initialisation the capture thread starts the uninitialised backend |
| LifecycleLimits.StartedAgainAfterFailure | src/unicapture.c:160-178 | After a failed start the capture thread calls start again on a backend that has not been initialised since |
| LifecycleLimits.TerminatedTwice | src/unicapture.c:92-98 | When both are told, a run exists in which vsync and capture thread terminate one video capture twice |
| LifecycleLimits.PowerUndoesUsersStop | src/service.c:413-419 | A run exists in which switching the television on resumes what the user had stopped |
| LifecycleLimits.RunsThroughPowerOff | src/service.c:413-425 | A run exists in which the service, paused and started again by hand, runs on through the next power-off |
| LifecycleLimits.SensorUndoesUsersStop | src/service.c:724-743 | A run exists in which the dark starts what the user had stopped |
| LifecycleLimits.SensorStartsWhileOff | src/service.c:724-743 | A run exists in which the dark starts the capture while the television is off |
| CaptureService.Daemon.constructor | src/unicapture.c:391-396 | The object begins as a zeroed service, in the first state of a run |
| CaptureService.Daemon.EnterStep | src/unicapture.c:118-157 | One statement of the capture thread before its loop, in place |
| CaptureService.Daemon.LoopStep | src/unicapture.c:159-211 | One statement of its loop, in place; a condition wait stays where it is |
| CaptureService.Daemon.UnsyncStep | src/unicapture.c:345-349 | Behind its loop, the vsync thread is told to stop and waited for, in place |
| CaptureService.Daemon.EndStep | src/unicapture.c:351-361 | Captures that run are terminated, in place |
| CaptureService.Daemon.CleanStep | src/unicapture.c:363-372 | Backends that are initialised are cleaned up, in place |
| CaptureService.Daemon.VsyncStep | src/unicapture.c:86-110 | One statement of the vsync thread, in place; its signal wakes a waiting capture thread |
| CaptureService.Daemon.ConnectionStep | src/service.c:27-68 | One statement of the connection thread, in place |
| CaptureService.Daemon.LinkStep | src/service.c:32-38 | Polling connects exactly if video or UI capture runs and the server answers |
| CaptureService.Daemon.Others | src/unicapture.c:112-389 | However long the other threads go on, they leave alone what the main thread sets, and the history stays a run |
| CaptureService.Daemon.OtherStep | src/unicapture.c:86-372 | A step of any other thread, whatever is answered, leaves alone what the main thread sets and takes no callback farther from its end |
| CaptureService.Daemon.JoinCapture | src/unicapture.c:453-463 | Waiting for the capture thread ends: whatever is answered, and however many steps of other threads come before each step of the one that is waited for |
| CaptureService.Daemon.UnicaptureStart | src/unicapture.c:441-451 | Sets the flag and creates the thread unless it is running |
| CaptureService.Daemon.UnicaptureStop | src/unicapture.c:453-463 | Clears the flag and joins the thread; 1 if it was not running |
| CaptureService.Daemon.ServiceStop | src/service.c:209-222 | Ends with nothing running; 0 exactly if it was running, and then both backends are given back; no other setting or pause is changed |
| CaptureService.Daemon.ServiceStart | src/service.c:180-207 | 1 exactly if it was running; 0 with everything running, -1 with everything taken back when no connection thread can be created |
| CaptureService.Daemon.ServiceDestroy | src/service.c:162-178 | No thread is alive afterwards and every init and start has been undone |
| CaptureService.Daemon.ResetState | src/unicapture.c:391-396 | The shared capture state is reset, in a state without other threads |
| CaptureService.Daemon.InitUiBackend | src/unicapture.c:21-67 | A candidate that loads becomes the backend, initialised; one that does not leaves the next to be tried |
| CaptureService.Daemon.ServiceInit | src/service.c:96-160 | Both backends are tried candidate by candidate: each ends freshly initialised or not referred to, a disabled one never is, and nothing is started |
| CaptureService.Daemon.HandleStart | src/service.c:224-238 | Settled before and after; a start is attempted exactly if the service was stopped, and true means that it now runs |
| CaptureService.Daemon.HandleStop | src/service.c:240-254 | Settled before and after; true exactly if it was running |
| CaptureService.Daemon.HandleStartOrStop | src/service.c:256-272 | A running service is stopped, and a start of a stopped one is attempted; true means that it is the other way round now |
| CaptureService.Daemon.ShutDown | src/main.c:209-211 | Behind the main loop no thread is left, and both backends have been given back |
| CaptureService.Daemon.ApplySettings | src/service.c:317-372 | The new settings hold, and a start is attempted exactly if the service ran before; otherwise it stays down |
| CaptureService.Daemon.PowerChanged | src/service.c:384-431 | Stops exactly if on the way out a running capture has no pause noted, attempts a start exactly if on the way in a noted pause meets a stopped capture and something to capture, and otherwise leaves it as it was |
| CaptureService.Daemon.WantsApp | src/service.c:526-544 | The two loops over the lists: with an included list an application is wanted exactly if it is on it, without one exactly if it is not on the excluded list |
| CaptureService.Daemon.VideoOutputChanged | src/service.c:482-551 | With something to capture and an application that the lists want, it attempts a start exactly if the service is down and leaves it running if it runs; otherwise it is down afterwards |
| CaptureService.Daemon.LuminanceChanged | src/service.c:724-743 | Unless switched off by settings or paused for power: stops exactly a running capture with no sensor pause noted in a bright room, attempts a start exactly of a stopped one with a pause noted in the dark; otherwise nothing changes |

## Left out

- The compiled flatcc runtime (builder, emitter, verifier, JSON) and the generated Hyperion message wrappers: only headers or thin calls.
- Capture backends, libyuv conversion, dlopen, sockets, curl, Luna calls, toasts, logging: foreign calls; in the service they are answers within an event.
- The conversion of a scanned decimal to a double (`grisu3_encode_double`, `grisu3_diy_fp_encode_double`, the strtod fallback) and the sprintf fallback of the printer: floating-point hardware or library code; `DoublePrint.PrintDouble` reports the fallback instead of printing.
- Grisu.Grisu3: where no decimal is clear for a double, success is not promised, only what it means; how many doubles have a clear decimal is not counted.
- Hexadecimal floating point in the scanner: its entry point gives the text back as no number, which is what is modelled.
- DoublePrint.PrintDouble: the digits are generated into a buffer of their own and copied behind the sign, where the code generates them there; aliasing of the two is not captured.
- DiyFps.Normalize: the test of the ten upper bits at a time is the comparison it amounts to.
- Search.ScalarsOrder: integers only; float and double vectors compare the same way but are no order when they hold a NaN.
- Strings.CompareKey: characters are unsigned numbers, and strcmp and strncmp are given by their definition in the C standard.
- The vsync path and fine-grained races: a step is one statement or one call, and a successful call to start and the flag it sets are one step; where both threads are told that the capture is gone, only init and cleanup of the video backend are claimed to stay paired.
- Calls that never return: backends, network and sleeps are taken to answer in the end; a fair schedule is one in which every thread moves again and again. The mutex around the vsync condition is part of the steps that signal and wait; that a wait may end without a signal is modelled.
- Failure to create the capture or the vsync thread, which the code does not check: assumed not to happen; failure to create the connection thread is modelled.
- Malformed bus messages, uninitialised luminance, settings persistence, HDR adjustments, acquired frames and their release, conversion and blending, metrics, lookup tables: no effect on the state that is modelled, or library-dependent.
- `parse_long` and its relatives for platform-sized types, `print_bool`, `base64_strerror`: the same macros again, or tables of texts.
- Portability headers and build scripts: no algorithmic content.
