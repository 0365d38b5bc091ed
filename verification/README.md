# Hyper core, modelled in Dafny

Hyper is a set of Java libraries built by Gradle plugins written in Kotlin. This project models its core and proves properties of the model. The modelled parts are:

- **String and codec utilities.**
  - The blank, numeric and integral predicates, and substring counting.
  - The delimiter joiner.
  - Hexadecimal encoding and UUID byte packing.
  - Leading-zero normalisation in `BigIntegerUtils.valueOf`.
  - Array copies and merge.
- **JVM type descriptors.**
  - The primitive-code table, `getDesc`, `forDesc` and the ancestor walk of `ClassUtils`.
  - The hand-written method-descriptor scanner of `MethodUtils` (section 4.3.3 of the Java Virtual Machine Specification, Java SE 8).
- **The director command tree.**
  - Parsing "/name args" into a direction detail.
  - Direction units with their parent, children and depth.
  - The depth-matched dispatch of `StdDirection`, which updates a `DirectionResult`.
  - The error message of `StdDirector`.
  - The unit builder.
- **The bean context.**
  - The singleton scope, with its early and final bean maps.
  - The bean-definition registry, with its override policy and its class-name index.
- **The Gradle plugins, reduced to their logic.**
  - The shadow ("hyper") configurations and their extends graph.
  - The dependency list, the anonymous-repository filter and the asset path rewrite.
  - The POM dependency merge (compile first, then runtime, without repeats).
  - The packaging check and the signing gate.
  - The manifest attribute merge of the Hyper jars.

Where the source updates an object in place, the model uses a class with `modifies` clauses. Examples are `StdDirectionUnit`, `DirectionResult`, `StdSingletonBeanScope`, `StdBeanDefinitionRegistry`, `StringJoiner`, the unit builder, the Gradle configuration container and the jar manifest. Where the source computes a value, the model uses datatypes and functions. Java `null` is `Option.None` where a parameter is `@Nullable`. A failed `AssertUtils` check or a thrown exception is an `Err` result. `LinkedHashMap` and `LinkedHashSet` are modelled once, in `LinkedMaps`, as a key sequence plus a map.

Source paths below are relative to the repository root.

## Model

| member | source | states |
|---|---|---|
| StringUtils.IsBlank | modules/core/src/main/java/team/idealstate/hyper/core/common/string/StringUtils.java:53-65 | the loop answers true exactly when every character is whitespace, so the empty string is blank |
| StringUtils.IsNullOrBlank | modules/core/src/main/java/team/idealstate/hyper/core/common/string/StringUtils.java:67-79 | true exactly for null or an all-whitespace string |
| StringUtils.IsNumeric | modules/core/src/main/java/team/idealstate/hyper/core/common/string/StringUtils.java:90-123 | true exactly for non-null input that is a single digit, or has a '-' or a digit first, a digit last, and only digits and at most one '.' in between |
| StringUtils.IsIntegral | modules/core/src/main/java/team/idealstate/hyper/core/common/string/StringUtils.java:125-150 | true exactly for non-null input that is a single digit, or has a '-' or a digit first, a digit last, and only digits in between |
| StringUtils.IntegralIsNumeric | modules/core/src/main/java/team/idealstate/hyper/core/common/string/StringUtils.java:90-150 | every integral literal is a numeric literal |
| StringUtils.BlankIsNotNumeric | modules/core/src/main/java/team/idealstate/hyper/core/common/string/StringUtils.java:90-93 | blank input (empty or all whitespace) is neither numeric nor integral |
| StringUtils.CountMatchesChar | modules/core/src/main/java/team/idealstate/hyper/core/common/string/StringUtils.java:152-166 | 0 for null; otherwise the number of positions that hold the character |
| StringUtils.GreedyCountBound | modules/core/src/main/java/team/idealstate/hyper/core/common/string/StringUtils.java:179-193 | every match the scan counts consumed a whole pattern's worth of characters |
| StringUtils.CountMatches | modules/core/src/main/java/team/idealstate/hyper/core/common/string/StringUtils.java:168-194 | 0 for a null or empty input or pattern and for a pattern longer than the input; count × pattern length never exceeds the input length; the count is the greedy scan's |
| StringUtils.CountMatchesMissesOverlappingStart | modules/core/src/main/java/team/idealstate/hyper/core/common/string/StringUtils.java:181-192 | "ab" occurs in "aab" at index 1, yet the scan as written counts 0 |
| StringUtils.NonOverlappingCountZero | modules/core/src/main/java/team/idealstate/hyper/core/common/string/StringUtils.java:168-194 | the corrected count is 0 exactly when the pattern occurs nowhere |
| StringUtils.NonOverlappingCountBound | modules/core/src/main/java/team/idealstate/hyper/core/common/string/StringUtils.java:168-194 | the corrected count × pattern length never exceeds the input length |
| StringUtils.CountMatchesCorrected | modules/core/src/main/java/team/idealstate/hyper/core/common/string/StringUtils.java:168-194 | corrected scan: 0 for null or empty input, otherwise the number of non-overlapping occurrences, leftmost first |
| StringJoiner.DelimiterFor | modules/core/src/main/java/team/idealstate/hyper/core/common/string/StringJoiner.java:213-217 | with a non-empty delimiter, the delimiter is written exactly when the buffer is non-empty; otherwise nothing is written |
| StringJoiner.AppendPiece | modules/core/src/main/java/team/idealstate/hyper/core/common/string/StringJoiner.java:79-87 | the old buffer is a prefix of the new one, and what follows it is delimiter, prefix, item, suffix in that order |
| StringJoiner.AppendAllLast | modules/core/src/main/java/team/idealstate/hyper/core/common/string/StringJoiner.java:79-87 | appending one more item extends the buffer by exactly that item's piece |
| StringJoiner.AppendAllNonEmpty | modules/core/src/main/java/team/idealstate/hyper/core/common/string/StringJoiner.java:213-217 | once the buffer is non-empty, every further item is preceded by the delimiter |
| StringJoiner.JoinWithPrefixed | modules/core/src/main/java/team/idealstate/hyper/core/common/string/StringJoiner.java:213-217 | a join is the first part followed by each later part with the delimiter before it |
| StringJoiner.AppendAllJoins | modules/core/src/main/java/team/idealstate/hyper/core/common/string/StringJoiner.java:69-217 | appending items to a new joiner gives the items, each wrapped in prefix and suffix, separated by the delimiter; leading items whose wrapped text is empty vanish |
| StringJoiner.PlainJoin | modules/core/src/main/java/team/idealstate/hyper/core/common/string/StringJoiner.java:69-217 | with a non-empty prefix or suffix, the result is the plain join of the wrapped items |
| StringJoiner.Joiner.constructor | modules/core/src/main/java/team/idealstate/hyper/core/common/string/StringJoiner.java:55-67 | the joiner keeps the delimiter, prefix and suffix it is given, and its buffer starts empty |
| StringJoiner.Joiner.Create | modules/core/src/main/java/team/idealstate/hyper/core/common/string/StringJoiner.java:55-67 | succeeds exactly when initialCapacity > 0; a failure is InvalidArgument; a new joiner is empty and keeps its delimiter, prefix and suffix |
| StringJoiner.Joiner.Append | modules/core/src/main/java/team/idealstate/hyper/core/common/string/StringJoiner.java:79-87 | the buffer grows by one piece for the string |
| StringJoiner.Joiner.AppendChar | modules/core/src/main/java/team/idealstate/hyper/core/common/string/StringJoiner.java:139-147 | the buffer grows by one piece for the character |
| StringJoiner.Joiner.AppendBool | modules/core/src/main/java/team/idealstate/hyper/core/common/string/StringJoiner.java:129-137 | the buffer grows by one piece for "true" or "false" |
| StringJoiner.Joiner.AppendInt | modules/core/src/main/java/team/idealstate/hyper/core/common/string/StringJoiner.java:89-107 | the buffer grows by one piece for the decimal text of the number |
| StringJoiner.Joiner.AppendRange | modules/core/src/main/java/team/idealstate/hyper/core/common/string/StringJoiner.java:192-201 | succeeds exactly when 0 <= start <= end <= length, then appends the slice; on failure the buffer is unchanged |
| StringJoiner.Joiner.AppendFrom | modules/core/src/main/java/team/idealstate/hyper/core/common/string/StringJoiner.java:186-190 | succeeds exactly when 0 <= start <= length, then appends the rest from start; on failure the buffer is unchanged |
| StringJoiner.Joiner.AppendChars | modules/core/src/main/java/team/idealstate/hyper/core/common/string/StringJoiner.java:165-174 | outcome and buffer are those of the check as written, which treats len as an end index while StringBuilder reads it as a count |
| StringJoiner.Joiner.AppendCharsFrom | modules/core/src/main/java/team/idealstate/hyper/core/common/string/StringJoiner.java:159-163 | as written, it passes the array length as len |
| StringJoiner.Joiner.AppendCharsCorrected | modules/core/src/main/java/team/idealstate/hyper/core/common/string/StringJoiner.java:165-174 | corrected: succeeds exactly when 0 <= offset <= end <= length, then appends chars[offset..end]; on failure the buffer is unchanged |
| StringJoiner.Joiner.AppendDelimiter | modules/core/src/main/java/team/idealstate/hyper/core/common/string/StringJoiner.java:213-217 | the buffer grows by the delimiter exactly when it was non-empty and the delimiter is non-empty |
| StringJoiner.Joiner.AppendPrefix | modules/core/src/main/java/team/idealstate/hyper/core/common/string/StringJoiner.java:219-223 | the buffer grows by the prefix, or not at all when the prefix is empty |
| StringJoiner.Joiner.AppendSuffix | modules/core/src/main/java/team/idealstate/hyper/core/common/string/StringJoiner.java:225-229 | the buffer grows by the suffix, or not at all when the suffix is empty |
| StringJoiner.Joiner.ToString | modules/core/src/main/java/team/idealstate/hyper/core/common/string/StringJoiner.java:246-250 | toString returns exactly the buffer |
| StringJoiner.CharsAsWritten | modules/core/src/main/java/team/idealstate/hyper/core/common/string/StringJoiner.java:165-174 | a failed check leaves the buffer as it was; past the check, a range that fits appends it, and one that does not fails with IndexOutOfBounds after the delimiter and prefix were written |
| StringJoiner.AppendCharsFromFails | modules/core/src/main/java/team/idealstate/hyper/core/common/string/StringJoiner.java:159-174 | append("abc", 1) passes the check, fails to take three characters from index 1, and leaves "x,[" behind |
| HexUtils.HexDigit | modules/common/src/main/java/team/idealstate/hyper/common/string/HexUtils.java:36-38 | the digit of every nibble is one of the sixteen upper-case hexadecimal digits |
| HexUtils.DigitValue | modules/common/src/main/java/team/idealstate/hyper/common/string/HexUtils.java:39-45 | the table lookup succeeds exactly for the sixteen digits, gives a value below 16, and that value's digit is the character looked up |
| HexUtils.DigitValueOfHexDigit | modules/common/src/main/java/team/idealstate/hyper/common/string/HexUtils.java:41-45 | looking up the digit of a nibble gives the nibble back |
| HexUtils.HexDigitIsTable | modules/common/src/main/java/team/idealstate/hyper/common/string/HexUtils.java:36-38 | the digit function agrees with the HEX_DIGITS table at every index |
| HexUtils.Hex | modules/common/src/main/java/team/idealstate/hyper/common/string/HexUtils.java:58-66 | the text has two characters per byte |
| HexUtils.HexAt | modules/common/src/main/java/team/idealstate/hyper/common/string/HexUtils.java:61-64 | character 2i is the digit of byte i's high nibble and character 2i+1 that of its low nibble |
| HexUtils.HexIsUpperCase | modules/common/src/main/java/team/idealstate/hyper/common/string/HexUtils.java:58-66 | every character of the text is an upper-case hexadecimal digit |
| HexUtils.Unhex | modules/common/src/main/java/team/idealstate/hyper/common/string/HexUtils.java:47-56 | decoding fails exactly when a character of a complete pair is not in the table; otherwise it yields one byte per pair |
| HexUtils.UnhexAt | modules/common/src/main/java/team/idealstate/hyper/common/string/HexUtils.java:51-54 | byte i is (table[hex[2i]] << 4) + table[hex[2i+1]] |
| HexUtils.ByteDecodes | modules/common/src/main/java/team/idealstate/hyper/common/string/HexUtils.java:53-63 | the two digits of a byte, looked up and combined, give the byte back |
| HexUtils.HexRoundTrip | modules/common/src/main/java/team/idealstate/hyper/common/string/HexUtils.java:47-66 | hexToBin(binToHex(b)) == b for every byte array |
| HexUtils.LowerCaseRejected | modules/common/src/main/java/team/idealstate/hyper/common/string/HexUtils.java:39-54 | a lower-case digit inside a pair makes decoding fail |
| HexUtils.OddCharacterIgnored | modules/common/src/main/java/team/idealstate/hyper/common/string/HexUtils.java:49 | a trailing odd character does not change the result |
| HexUtils.HexToBin | modules/common/src/main/java/team/idealstate/hyper/common/string/HexUtils.java:47-56 | the loop fails exactly when decoding fails and otherwise fills a new array with the decoded bytes |
| HexUtils.BinToHex | modules/common/src/main/java/team/idealstate/hyper/common/string/HexUtils.java:58-66 | the loop produces the hexadecimal text of the array, two characters per byte |
| UUIDUtils.LongBytes | modules/core/src/main/java/team/idealstate/hyper/core/common/uid/UUIDUtils.java:93-100 | a long gives eight bytes |
| UUIDUtils.LongBytesRoundTrip | modules/core/src/main/java/team/idealstate/hyper/core/common/uid/UUIDUtils.java:58-100 | reading back the eight bytes of a long gives the long |
| UUIDUtils.BytesLongRoundTrip | modules/core/src/main/java/team/idealstate/hyper/core/common/uid/UUIDUtils.java:58-100 | writing the long read from eight bytes gives the bytes back |
| UUIDUtils.Bytes | modules/core/src/main/java/team/idealstate/hyper/core/common/uid/UUIDUtils.java:89-109 | a UUID gives sixteen bytes |
| UUIDUtils.UuidRoundTrip | modules/core/src/main/java/team/idealstate/hyper/core/common/uid/UUIDUtils.java:41-122 | without swap, binToUUID(uuidToBin(u)) == u |
| UUIDUtils.BinRoundTrip | modules/core/src/main/java/team/idealstate/hyper/core/common/uid/UUIDUtils.java:41-122 | without swap, uuidToBin(binToUUID(b)) == b for every 16-byte array |
| UUIDUtils.Gather | modules/core/src/main/java/team/idealstate/hyper/core/common/uid/UUIDUtils.java:48-56 | the copy has sixteen bytes and its last eight are the input's |
| UUIDUtils.SwapPair | modules/core/src/main/java/team/idealstate/hyper/core/common/uid/UUIDUtils.java:112-118 | one exchange keeps the length |
| UUIDUtils.SwapSteps | modules/core/src/main/java/team/idealstate/hyper/core/common/uid/UUIDUtils.java:110-120 | the exchanges keep the length |
| UUIDUtils.SwapPair04 | modules/core/src/main/java/team/idealstate/hyper/core/common/uid/UUIDUtils.java:112-118 | exchanging the pairs at 0 and 4 swaps bytes 0,1 with 4,5 and leaves the rest |
| UUIDUtils.SwapPair26 | modules/core/src/main/java/team/idealstate/hyper/core/common/uid/UUIDUtils.java:112-118 | exchanging the pairs at 2 and 6 swaps bytes 2,3 with 6,7 and leaves the rest |
| UUIDUtils.SwapPair42 | modules/core/src/main/java/team/idealstate/hyper/core/common/uid/UUIDUtils.java:112-118 | exchanging the pairs at 4 and 2 swaps bytes 4,5 with 2,3 and leaves the rest |
| UUIDUtils.SwapPair60 | modules/core/src/main/java/team/idealstate/hyper/core/common/uid/UUIDUtils.java:112-118 | exchanging the pairs at 6 and 0 swaps bytes 6,7 with 0,1 and leaves the rest |
| UUIDUtils.SwapStepsOrder | modules/core/src/main/java/team/idealstate/hyper/core/common/uid/UUIDUtils.java:110-120 | the four in-place exchanges with RESTORE leave the pairs of the first half in the order 1, 0, 3, 2 |
| UUIDUtils.SwapKeepsSuffix | modules/core/src/main/java/team/idealstate/hyper/core/common/uid/UUIDUtils.java:48-120 | both directions of the swap leave bytes 8 to 15 alone |
| UUIDUtils.ToBin | modules/core/src/main/java/team/idealstate/hyper/core/common/uid/UUIDUtils.java:89-122 | the encoding has sixteen bytes |
| UUIDUtils.SwapRoundTripAsWritten | modules/core/src/main/java/team/idealstate/hyper/core/common/uid/UUIDUtils.java:38-120 | with swap, decoding the encoding as written gives the UUID whose first-half pairs are reordered by RESTORE, not the UUID itself |
| UUIDUtils.SwapRoundTripFails | modules/core/src/main/java/team/idealstate/hyper/core/common/uid/UUIDUtils.java:38-120 | for most significant bits 0x0001020304050607 the swapped round trip gives 0x0405060702030001 |
| UUIDUtils.ToBinCorrected | modules/core/src/main/java/team/idealstate/hyper/core/common/uid/UUIDUtils.java:89-122 | the corrected encoding has sixteen bytes and with swap keeps bytes 8 to 15 of the plain encoding |
| UUIDUtils.CorrectedRoundTrip | modules/core/src/main/java/team/idealstate/hyper/core/common/uid/UUIDUtils.java:41-122 | with the corrected encoder, binToUUID(uuidToBin(u, f), f) == u for both flags |
| UUIDUtils.UuidToBin | modules/core/src/main/java/team/idealstate/hyper/core/common/uid/UUIDUtils.java:89-122 | the method returns a new array holding the encoding as written |
| UUIDUtils.UuidToBinCorrected | modules/core/src/main/java/team/idealstate/hyper/core/common/uid/UUIDUtils.java:89-122 | the corrected method returns a new array holding the corrected encoding |
| UUIDUtils.BigEndianBytes | modules/core/src/main/java/team/idealstate/hyper/core/common/uid/UUIDUtils.java:92-109 | the sixteen stores give the big-endian bytes of both halves, most significant half first |
| UUIDUtils.WriteLong | modules/core/src/main/java/team/idealstate/hyper/core/common/uid/UUIDUtils.java:93-100 | the eight stores write the bytes of the long at the offset and change no other element |
| UUIDUtils.SwapInPlace | modules/core/src/main/java/team/idealstate/hyper/core/common/uid/UUIDUtils.java:110-120 | the in-place loop leaves the array as the four exchanges describe |
| UUIDUtils.BinToUuid | modules/core/src/main/java/team/idealstate/hyper/core/common/uid/UUIDUtils.java:45-75 | null or a length other than 16 is rejected; otherwise the result is the decoding of the bytes, after the gather when swap is set |
| UUIDUtils.GatherCopy | modules/core/src/main/java/team/idealstate/hyper/core/common/uid/UUIDUtils.java:48-56 | the copy takes pair j from position SWAP[j] and bytes 8 to 15 from the input |
| BigIntegerUtils.ValueOf | modules/common/src/main/java/team/idealstate/hyper/common/math/BigIntegerUtils.java:40-57 | valueOf(String) rejects exactly the non-integral strings; a value it gives is the decimal value of the text with its leading zeros stripped |
| BigIntegerUtils.LeadingZeros | modules/common/src/main/java/team/idealstate/hyper/common/math/BigIntegerUtils.java:46-51 | the count is the length of the run of '0' characters at the start: every character before it is '0' and the next one is not |
| BigIntegerUtils.StripLeadingZeros | modules/common/src/main/java/team/idealstate/hyper/common/math/BigIntegerUtils.java:43-55 | the loop over the leading '0's, remembering the last one's index, leaves the text valueOf hands to BigInteger |
| BigIntegerUtils.LeadingZerosIsRun | modules/common/src/main/java/team/idealstate/hyper/common/math/BigIntegerUtils.java:46-51 | any index before which all characters are '0' and at which there is no '0' is the leading-zero count |
| BigIntegerUtils.StrippedKeeps | modules/common/src/main/java/team/idealstate/hyper/common/math/BigIntegerUtils.java:43-55 | "0" is kept as it is and a negative number is never stripped |
| BigIntegerUtils.AllZerosStripToEmpty | modules/common/src/main/java/team/idealstate/hyper/common/math/BigIntegerUtils.java:43-55 | an all-zero string longer than one character strips to the empty string |
| BigIntegerUtils.StrippingKeepsValue | modules/common/src/main/java/team/idealstate/hyper/common/math/BigIntegerUtils.java:41-57 | an integral string with a non-zero digit has a value, and it is the one new BigInteger gives the unstripped text |
| BigIntegerUtils.ValueOfDoubleZeroFails | modules/common/src/main/java/team/idealstate/hyper/common/math/BigIntegerUtils.java:41-57 | "00" is integral, yet valueOf hands the empty string to BigInteger, which rejects it |
| BigIntegerUtils.StrippedCorrected | modules/common/src/main/java/team/idealstate/hyper/common/math/BigIntegerUtils.java:43-55 | the corrected strip never empties a non-empty string |
| BigIntegerUtils.CorrectedValueOf | modules/common/src/main/java/team/idealstate/hyper/common/math/BigIntegerUtils.java:41-57 | with the corrected strip every integral string has a value, equal to the value of the unstripped text |
| BigIntegerUtils.CorrectedValueOfUnsigned | modules/common/src/main/java/team/idealstate/hyper/common/math/BigIntegerUtils.java:43-55 | for an unsigned integral string, the corrected strip does not change the value |
| BigIntegerUtils.ZerosPrefixValue | modules/common/src/main/java/team/idealstate/hyper/common/math/BigIntegerUtils.java:43-55 | dropping leading '0' digits keeps the decimal value |
| BigIntegerUtils.TruncDivRemainder | modules/common/src/main/java/team/idealstate/hyper/common/math/BigIntegerUtils.java:128-134 | divide rounds toward zero: the remainder is smaller than the divisor in magnitude and has the dividend's sign |
| BigIntegerUtils.Compute | modules/common/src/main/java/team/idealstate/hyper/common/math/BigIntegerUtils.java:74-188 | divide fails exactly for a zero divisor and mod exactly for a non-positive modulus; mod lies in [0, m); min and max are one of the operands and below, or above, both |
| BigIntegerUtils.ModIsRemainder | modules/common/src/main/java/team/idealstate/hyper/common/math/BigIntegerUtils.java:146-152 | mod is the non-negative remainder of floored division |
| BigIntegerUtils.Cache.constructor | modules/common/src/main/java/team/idealstate/hyper/common/math/BigIntegerUtils.java:37-38 | the class initialiser leaves "0" cached as 0 and the cache consistent |
| BigIntegerUtils.Cache.ValueOfString | modules/common/src/main/java/team/idealstate/hyper/common/math/BigIntegerUtils.java:40-57 | a non-integral string is rejected; otherwise the value is the stripped text's, and on success it is cached under the stripped text; every cached key parses to its value |
| BigIntegerUtils.Cache.ValueOfLong | modules/common/src/main/java/team/idealstate/hyper/common/math/BigIntegerUtils.java:59-62 | the value is the long's, cached under its decimal string |
| BigIntegerUtils.Cache.Remember | modules/common/src/main/java/team/idealstate/hyper/common/math/BigIntegerUtils.java:69 | putIfAbsent leaves the result cached under its decimal string, keeping the cache consistent |
| BigIntegerUtils.Cache.ApplyValues | modules/common/src/main/java/team/idealstate/hyper/common/math/BigIntegerUtils.java:73-188 | the BigInteger overloads compute the operation and cache a successful result under its text |
| BigIntegerUtils.Cache.ApplyStrings | modules/common/src/main/java/team/idealstate/hyper/common/math/BigIntegerUtils.java:64-179 | the String overloads reject a non-integral operand without touching the cache; otherwise the first operand's value is cached under its stripped text, then the second's, then a successful result under its decimal text, and the result is the operation on both values |
| ArrayUtils.CopyRange | modules/common/src/main/java/team/idealstate/hyper/common/array/ArrayUtils.java:75-99 | an empty source comes back as it is; otherwise a successful copy has len - offset elements |
| ArrayUtils.CopyRangeFromStart | modules/common/src/main/java/team/idealstate/hyper/common/array/ArrayUtils.java:75-99 | from offset 0 both the arraycopy path and the element loop copy exactly the first len elements |
| ArrayUtils.CopyRangeFromOneFails | modules/common/src/main/java/team/idealstate/hyper/common/array/ArrayUtils.java:81-95 | with offset 1 and end 2 on a two-element array of non-null elements, both paths throw IndexOutOfBounds |
| ArrayUtils.CopyRangeImpl | modules/common/src/main/java/team/idealstate/hyper/common/array/ArrayUtils.java:75-99 | the method fails exactly when the specification does, returns the source itself when it is empty, and otherwise a new array with the specified contents |
| ArrayUtils.CopyOf | modules/common/src/main/java/team/idealstate/hyper/common/array/ArrayUtils.java:51-56 | the result has the source's contents; it is the source itself when empty and a new array otherwise |
| ArrayUtils.CopyOfRangeFrom | modules/common/src/main/java/team/idealstate/hyper/common/array/ArrayUtils.java:58-65 | an offset outside [0, length] is rejected; otherwise the result is the private copy up to the end of the array |
| ArrayUtils.CopyOfRange | modules/common/src/main/java/team/idealstate/hyper/common/array/ArrayUtils.java:67-73 | indexes other than 0 <= offset <= len <= length are rejected; otherwise the result is the private copy |
| ArrayUtils.CopyOfRangeCorrected | modules/common/src/main/java/team/idealstate/hyper/common/array/ArrayUtils.java:67-99 | rejected exactly for invalid indexes; otherwise the copy holds source[offset..len] |
| ArrayUtils.Merge | modules/common/src/main/java/team/idealstate/hyper/common/array/ArrayUtils.java:101-128 | the result holds the first array's elements, then the second's, then the extra ones; it is the first array itself when nothing is added to it, and a new array otherwise |
| ArrayUtils.EmptinessChecks | modules/common/src/main/java/team/idealstate/hyper/common/array/ArrayUtils.java:172-187 | isEmpty holds exactly for an array without elements, and isNullOrEmpty exactly for null or an empty array |
| ArrayUtils.DefaultIfEmpty | modules/common/src/main/java/team/idealstate/hyper/common/array/ArrayUtils.java:137-142 | the default exactly when the array has no element, the array otherwise |
| ArrayUtils.DefaultIfNullOrEmpty | modules/common/src/main/java/team/idealstate/hyper/common/array/ArrayUtils.java:144-153 | the default for null or an empty array, the array otherwise, so never null |
| ArrayUtils.EmptyIfNull | modules/common/src/main/java/team/idealstate/hyper/common/array/ArrayUtils.java:132-135 | the array itself when non-null, otherwise a new empty array |
| ClassUtils.PrimOfName | modules/core/src/main/java/team/idealstate/hyper/core/common/reflect/ClassUtils.java:84-105 | the switch finds a primitive exactly for the nine names of PRIMITIVE_CLASS_NAME_SET, and that primitive's name is the input |
| ClassUtils.PrimOfDesc | modules/core/src/main/java/team/idealstate/hyper/core/common/reflect/ClassUtils.java:118-139 | the switch finds a primitive exactly for the nine codes of PRIMITIVE_TYPE_DESC_SET, and that primitive's code is the input |
| ClassUtils.IsPrimitiveDesc | modules/core/src/main/java/team/idealstate/hyper/core/common/reflect/ClassUtils.java:198-201 | a blank descriptor is rejected; otherwise the answer is true exactly when the descriptor is one of the primitive codes |
| ClassUtils.ForName | modules/core/src/main/java/team/idealstate/hyper/core/common/reflect/ClassUtils.java:76-107 | a blank name is rejected; a primitive is found by its own name, and any other name is loaded as a class of that name |
| ClassUtils.ForDesc | modules/core/src/main/java/team/idealstate/hyper/core/common/reflect/ClassUtils.java:110-145 | a blank descriptor or "L" alone is rejected; a primitive is found by its own code; "L" followed by a name and one more character loads that name, and any other descriptor is loaded as it is |
| ClassUtils.GetDesc | modules/core/src/main/java/team/idealstate/hyper/core/common/reflect/ClassUtils.java:152-181 | the descriptor is non-empty except for an array class with an empty name |
| ClassUtils.IsPrimitiveDescExactly | modules/core/src/main/java/team/idealstate/hyper/core/common/reflect/ClassUtils.java:198-201 | isPrimitiveDesc answers true exactly for the nine one-letter codes V, Z, C, B, S, I, F, J, D |
| ClassUtils.PrimitiveDescRoundTrip | modules/core/src/main/java/team/idealstate/hyper/core/common/reflect/ClassUtils.java:75-181 | each primitive's getDesc is its code, and forDesc of the code and forName of the name both give the primitive back |
| ClassUtils.DescRoundTrip | modules/core/src/main/java/team/idealstate/hyper/core/common/reflect/ClassUtils.java:109-181 | for every well-formed class, an array keeps its name as descriptor, any other reference class is wrapped in "L...;", and forDesc(getDesc(c)) resolves to c |
| ClassUtils.Parents | modules/core/src/main/java/team/idealstate/hyper/core/common/reflect/ClassUtils.java:60-67 | the parents are exactly the superclass, if any, and the directly implemented interfaces |
| ClassUtils.AncestorSmaller | modules/core/src/main/java/team/idealstate/hyper/core/common/reflect/ClassUtils.java:57-70 | a proper ancestor has a smaller hierarchy than its descendant, so the walk terminates |
| ClassUtils.AncestorOfParent | modules/core/src/main/java/team/idealstate/hyper/core/common/reflect/ClassUtils.java:60-67 | a parent of the class or of one of its ancestors is an ancestor |
| ClassUtils.ClosedHoldsAncestors | modules/core/src/main/java/team/idealstate/hyper/core/common/reflect/ClassUtils.java:57-70 | a list closed under taking parents holds every ancestor of each of its classes |
| ClassUtils.RemoveFirst | modules/core/src/main/java/team/idealstate/hyper/core/common/reflect/ClassUtils.java:65 | List.remove keeps every other element, drops nothing when the element is absent, and on a list without repeats leaves no copy of it |
| ClassUtils.EnqueueInterfaces | modules/core/src/main/java/team/idealstate/hyper/core/common/reflect/ClassUtils.java:64-67 | after the interface loop the deque holds exactly the old entries and the interfaces, and its size grows by at most the interfaces' sizes |
| ClassUtils.VisitClosed | modules/core/src/main/java/team/idealstate/hyper/core/common/reflect/ClassUtils.java:59-70 | visiting the head of the deque keeps every parent of a visited class either visited or still queued |
| ClassUtils.GetAncestorClasses | modules/core/src/main/java/team/idealstate/hyper/core/common/reflect/ClassUtils.java:53-73 | the result has no repeats, does not hold the class itself, and holds exactly its superclasses and interfaces, direct or inherited |
| MethodUtils.Record | modules/core/src/main/java/team/idealstate/hyper/core/common/reflect/MethodUtils.java:101-118 | a finished type descriptor keeps the return-type header, sets the last-parameter footer, and never clears a return type already read |
| MethodUtils.Step | modules/core/src/main/java/team/idealstate/hyper/core/common/reflect/MethodUtils.java:78-152 | one pass of the switch keeps every recorded header before the next index and never clears the return type |
| MethodUtils.Scan | modules/core/src/main/java/team/idealstate/hyper/core/common/reflect/MethodUtils.java:60-160 | a successful scan has read a return type, and input shorter than three characters or not starting with '(' always fails |
| MethodUtils.RecordType | modules/core/src/main/java/team/idealstate/hyper/core/common/reflect/MethodUtils.java:101-113 | the forDesc call of a finished type matches its specification |
| MethodUtils.OnArray | modules/core/src/main/java/team/idealstate/hyper/core/common/reflect/MethodUtils.java:79-88 | case '[' matches one step of the specification |
| MethodUtils.OnClass | modules/core/src/main/java/team/idealstate/hyper/core/common/reflect/MethodUtils.java:89-96 | case 'L' matches one step of the specification |
| MethodUtils.OnClassEnd | modules/core/src/main/java/team/idealstate/hyper/core/common/reflect/MethodUtils.java:97-118 | case ';' matches one step of the specification |
| MethodUtils.OnReturn | modules/core/src/main/java/team/idealstate/hyper/core/common/reflect/MethodUtils.java:119-127 | case ')' matches one step of the specification |
| MethodUtils.OnOther | modules/core/src/main/java/team/idealstate/hyper/core/common/reflect/MethodUtils.java:128-151 | the default case matches one step of the specification |
| MethodUtils.ScanDescriptor | modules/core/src/main/java/team/idealstate/hyper/core/common/reflect/MethodUtils.java:61-160 | the labelled scan loop computes the specified scan, failure included |
| MethodUtils.GetParamTypes | modules/core/src/main/java/team/idealstate/hyper/core/common/reflect/MethodUtils.java:54-161 | getParamTypes returns the parameter classes the scan collects, or its error |
| MethodUtils.GetReturnType | modules/core/src/main/java/team/idealstate/hyper/core/common/reflect/MethodUtils.java:163-261 | getReturnType returns the return class the scan reads, or its error |
| MethodUtils.GetDesc | modules/core/src/main/java/team/idealstate/hyper/core/common/reflect/MethodUtils.java:40-52 | the method descriptor opens with '(' |
| MethodUtils.SkipName | modules/core/src/main/java/team/idealstate/hyper/core/common/reflect/MethodUtils.java:128-131 | inside a class name the scan skips characters without changing its state |
| MethodUtils.ForDescOfClassDesc | modules/core/src/main/java/team/idealstate/hyper/core/common/reflect/MethodUtils.java:103 | forDesc of a whole "L...;" descriptor loads the class of that name |
| MethodUtils.ScanPrimitive | modules/core/src/main/java/team/idealstate/hyper/core/common/reflect/MethodUtils.java:128-151 | a primitive code at a type boundary is one step that stores the primitive |
| MethodUtils.ScanClass | modules/core/src/main/java/team/idealstate/hyper/core/common/reflect/MethodUtils.java:89-118 | a class descriptor at a type boundary is read by the corrected scan and stored as that class |
| MethodUtils.ScanOne | modules/core/src/main/java/team/idealstate/hyper/core/common/reflect/MethodUtils.java:78-152 | any one type descriptor the scan can read moves it to the end of the descriptor with the type stored |
| MethodUtils.AfterParams | modules/core/src/main/java/team/idealstate/hyper/core/common/reflect/MethodUtils.java:101-118 | storing parameters leaves the headers and the return type alone |
| MethodUtils.ParamsHead | modules/core/src/main/java/team/idealstate/hyper/core/common/reflect/MethodUtils.java:46-48 | the first of several concatenated parameter descriptors is found at the start, the rest after it |
| MethodUtils.ScanHead | modules/core/src/main/java/team/idealstate/hyper/core/common/reflect/MethodUtils.java:73-152 | the scan reads the first of the parameter descriptors and stops where the rest begin |
| MethodUtils.ScanParams | modules/core/src/main/java/team/idealstate/hyper/core/common/reflect/MethodUtils.java:73-152 | the parameter descriptors are read one after the other, each stored in order |
| MethodUtils.ScanReturn | modules/core/src/main/java/team/idealstate/hyper/core/common/reflect/MethodUtils.java:119-152 | after ')' the scan reads the return descriptor and reaches the end |
| MethodUtils.ScanOfDescs | modules/core/src/main/java/team/idealstate/hyper/core/common/reflect/MethodUtils.java:60-161 | a method descriptor made of readable type descriptors scans successfully, with the return type and, in getParamTypes, the parameter list read back |
| MethodUtils.JoinDescsConcat | modules/core/src/main/java/team/idealstate/hyper/core/common/reflect/MethodUtils.java:46-48 | the parameter part of getDesc is the concatenation of the parameters' descriptors |
| MethodUtils.PlainReadsAs | modules/core/src/main/java/team/idealstate/hyper/core/common/reflect/MethodUtils.java:41-52 | getDesc of a primitive, or for the corrected scan of a delimitable class, is read back as that class |
| MethodUtils.PlainAllReadAs | modules/core/src/main/java/team/idealstate/hyper/core/common/reflect/MethodUtils.java:41-52 | the same for every parameter |
| MethodUtils.PrimitiveRoundTrip | modules/core/src/main/java/team/idealstate/hyper/core/common/reflect/MethodUtils.java:40-261 | for primitive-only signatures getParamTypes and getReturnType invert getDesc |
| MethodUtils.CorrectedRoundTrip | modules/core/src/main/java/team/idealstate/hyper/core/common/reflect/MethodUtils.java:40-261 | with the correction both scans invert getDesc for every signature of primitives and delimitable non-array classes |
| MethodUtils.RoundTrip | modules/core/src/main/java/team/idealstate/hyper/core/common/reflect/MethodUtils.java:40-261 | the round trip shared by the two lemmas above, for either scan |
| MethodUtils.StepOfPrefix | modules/core/src/main/java/team/idealstate/hyper/core/common/reflect/MethodUtils.java:78-152 | one step reads nothing after its index, so extending the descriptor does not change it |
| MethodUtils.ScanOfExtension | modules/core/src/main/java/team/idealstate/hyper/core/common/reflect/MethodUtils.java:74-76 | once the return type is read, any further character fails the scan |
| MethodUtils.TrailingRejected | modules/core/src/main/java/team/idealstate/hyper/core/common/reflect/MethodUtils.java:74-76 | an accepted descriptor with anything appended is rejected |
| MethodUtils.StepHeaders | modules/core/src/main/java/team/idealstate/hyper/core/common/reflect/MethodUtils.java:119-127 | only ')' sets the return-type header, and only once |
| MethodUtils.ScanCloses | modules/core/src/main/java/team/idealstate/hyper/core/common/reflect/MethodUtils.java:119-127 | an accepted rest of the descriptor holds one ')' if the header is not yet set and none otherwise |
| MethodUtils.OneClose | modules/core/src/main/java/team/idealstate/hyper/core/common/reflect/MethodUtils.java:119-122 | an accepted descriptor holds exactly one ')' |
| MethodUtils.RecordInStep | modules/core/src/main/java/team/idealstate/hyper/core/common/reflect/MethodUtils.java:101-118 | a parameter getParamTypes resolves is a step getReturnType takes too, and the two states stay in step |
| MethodUtils.StepInStep | modules/core/src/main/java/team/idealstate/hyper/core/common/reflect/MethodUtils.java:78-252 | each successful step of getParamTypes is a successful step of getReturnType, with the states kept in step |
| MethodUtils.ScanInStep | modules/core/src/main/java/team/idealstate/hyper/core/common/reflect/MethodUtils.java:73-252 | whatever getParamTypes accepts from a point on, getReturnType accepts from the same point |
| MethodUtils.ParamsImplyReturn | modules/core/src/main/java/team/idealstate/hyper/core/common/reflect/MethodUtils.java:60-261 | every descriptor getParamTypes accepts, getReturnType accepts too, with the same return type |
| MethodUtils.EmptyNameOnlyInParams | modules/core/src/main/java/team/idealstate/hyper/core/common/reflect/MethodUtils.java:103 | "(L;)V" fails in getParamTypes, which hands the empty class name to forDesc, yet getReturnType accepts it |
| MethodUtils.ArrayPrefixInsideName | modules/core/src/main/java/team/idealstate/hyper/core/common/reflect/MethodUtils.java:79-88 | a '[' inside a class name is rejected |
| MethodUtils.ObjectReturnScan | modules/core/src/main/java/team/idealstate/hyper/core/common/reflect/MethodUtils.java:89-93 | the scan of "()Ljava.lang.Object;" fails at the 'L' after ')' |
| MethodUtils.ObjectReturnRejected | modules/core/src/main/java/team/idealstate/hyper/core/common/reflect/MethodUtils.java:89-93 | both scans reject the descriptor of a no-argument method returning java.lang.Object |
| MethodUtils.ObjectReturnCorrected | modules/core/src/main/java/team/idealstate/hyper/core/common/reflect/MethodUtils.java:89-93 | the corrected scan reads that descriptor as java.lang.Object |
| MethodUtils.ObjectDesc | modules/core/src/main/java/team/idealstate/hyper/core/common/reflect/MethodUtils.java:40-52 | getDesc of a no-argument method returning java.lang.Object is "()Ljava.lang.Object;" |
| MethodUtils.ObjectPlain | modules/core/src/main/java/team/idealstate/hyper/core/common/reflect/MethodUtils.java:41-52 | java.lang.Object is a class the corrected scan can delimit |
| MethodUtils.LexerForDesc | modules/core/src/main/java/team/idealstate/hyper/core/common/reflect/MethodUtils.java:103 | forDesc("Lexer") strips the first and the last character |
| MethodUtils.VoidForDesc | modules/core/src/main/java/team/idealstate/hyper/core/common/reflect/MethodUtils.java:138-140 | forDesc("V") is the void class |
| MethodUtils.LeadingLNameScan | modules/core/src/main/java/team/idealstate/hyper/core/common/reflect/MethodUtils.java:97-114 | in "(LLexer;)V" the scan hands forDesc the bare name "Lexer" |
| MethodUtils.LeadingLNameMangled | modules/core/src/main/java/team/idealstate/hyper/core/common/reflect/MethodUtils.java:103 | getParamTypes reads the parameter of "(LLexer;)V" as the class "exe" |
| MethodUtils.LeadingLNameCorrected | modules/core/src/main/java/team/idealstate/hyper/core/common/reflect/MethodUtils.java:103 | the corrected scan reads it as the class Lexer |
| DirectionResolver.NewDetail | modules/director/src/main/java/team/idealstate/hyper/director/api/DirectionDetail.java:41-46 | the detail is built exactly when the name is not blank, and then holds the name and the arguments given |
| DirectionResolver.Fields | modules/director/src/main/java/team/idealstate/hyper/director/impl/StdDirectionDetailResolver.java:48 | splitting always gives at least one field |
| DirectionResolver.DropTrailingEmpty | modules/director/src/main/java/team/idealstate/hyper/director/impl/StdDirectionDetailResolver.java:48 | split drops exactly the empty fields at the end: the result is a prefix, ends in a non-empty field or is empty, and only empty fields were dropped |
| DirectionResolver.FieldsHaveNoSeparator | modules/director/src/main/java/team/idealstate/hyper/director/impl/StdDirectionDetailResolver.java:48 | no field holds the separator |
| DirectionResolver.FieldsJoin | modules/director/src/main/java/team/idealstate/hyper/director/impl/StdDirectionDetailResolver.java:48 | joining the fields with single spaces gives the string back |
| DirectionResolver.FieldsOfJoin | modules/director/src/main/java/team/idealstate/hyper/director/impl/StdDirectionDetailResolver.java:48 | the fields of separator-free words joined by single spaces are those words |
| DirectionResolver.FieldsOfWord | modules/director/src/main/java/team/idealstate/hyper/director/impl/StdDirectionDetailResolver.java:48 | a word without a separator is its only field |
| DirectionResolver.FieldsOfWordThen | modules/director/src/main/java/team/idealstate/hyper/director/impl/StdDirectionDetailResolver.java:48 | a word, a space and a tail split into the word and the tail's fields |
| DirectionResolver.AsArray | modules/director/src/main/java/team/idealstate/hyper/director/impl/StdDirectionDetailResolver.java:48 | the tokens as a String[] of non-null elements, in order |
| DirectionResolver.Unwrap | modules/director/src/main/java/team/idealstate/hyper/director/impl/StdDirectionDetailResolver.java:53 | the copied array back as strings, one per element |
| DirectionResolver.Resolve | modules/director/src/main/java/team/idealstate/hyper/director/impl/StdDirectionDetailResolver.java:43-56 | a direction that does not start with "/" is rejected |
| DirectionResolver.ResolveWithArgumentsFails | modules/director/src/main/java/team/idealstate/hyper/director/impl/StdDirectionDetailResolver.java:53 | as written, any direction with an argument fails, because copyOfRange(arguments, 1) copies past the end of the source |
| DirectionResolver.ResolveCorrected | modules/director/src/main/java/team/idealstate/hyper/director/impl/StdDirectionDetailResolver.java:43-56 | a direction without "/" is rejected; a resolved name followed by the arguments are the split tokens, and a line without a space has no arguments |
| DirectionResolver.ResolveRoundTrip | modules/director/src/main/java/team/idealstate/hyper/director/impl/StdDirectionDetailResolver.java:43-56 | "/" followed by a non-blank name and non-empty, separator-free arguments joined by spaces resolves to that name and those arguments |
| DirectionResolver.ResolveDegenerate | modules/director/src/main/java/team/idealstate/hyper/director/impl/StdDirectionDetailResolver.java:43-56 | "/" alone has a blank name and is rejected by DirectionDetail, and a line of spaces has no token at all, so arguments[0] throws |
| DirectionResults.DirectionResult.constructor | modules/director/src/main/java/team/idealstate/hyper/director/api/DirectionResult.java:41-51 | a new result holds the given code, accepted depth -1 and no data |
| DirectionResults.DirectionResult.SetCode | modules/director/src/main/java/team/idealstate/hyper/director/api/DirectionResult.java:58-61 | the code is replaced and nothing else changes |
| DirectionResults.DirectionResult.SetAcceptedDepth | modules/director/src/main/java/team/idealstate/hyper/director/api/DirectionResult.java:67-72 | a negative depth is rejected and changes nothing; otherwise the accepted depth becomes the larger of the old and the new one; it never drops below -1 |
| DirectionResults.DirectionResult.SetData | modules/director/src/main/java/team/idealstate/hyper/director/api/DirectionResult.java:79-81 | the data is replaced and nothing else changes |
| DirectionResults.DepthAfterIsMaximum | modules/director/src/main/java/team/idealstate/hyper/director/api/DirectionResult.java:67-72 | after any sequence of calls the accepted depth is at least the start and every depth set, and is the start or one of them |
| DirectionResults.SetDepths | modules/director/src/main/java/team/idealstate/hyper/director/api/DirectionResult.java:67-72 | a sequence of setAcceptedDepth calls leaves the depth the specification computes and the code and data alone |
| DirectionUnits.StdDirectionUnit.constructor | modules/director/src/main/java/team/idealstate/hyper/director/impl/StdDirectionUnit.java:52-61 | a unit with a non-blank name starts as a root with the given name and description and no children |
| DirectionUnits.StdDirectionUnit.Create | modules/director/src/main/java/team/idealstate/hyper/director/impl/StdDirectionUnit.java:56-61 | a blank name is rejected; otherwise a new root unit with that name and description and no children |
| DirectionUnits.StdDirectionUnit.SetName | modules/director/src/main/java/team/idealstate/hyper/director/impl/StdDirectionUnit.java:70-73 | a blank name is rejected and leaves the name; otherwise the name is replaced; nothing else changes |
| DirectionUnits.StdDirectionUnit.SetDescription | modules/director/src/main/java/team/idealstate/hyper/director/impl/StdDirectionUnit.java:82-85 | the description is replaced and nothing else changes |
| DirectionUnits.StdDirectionUnit.SetParent | modules/director/src/main/java/team/idealstate/hyper/director/impl/StdDirectionUnit.java:94-100 | clearing the parent always succeeds, setting one succeeds only on a root, and a refused call changes nothing |
| DirectionUnits.StdDirectionUnit.GetChildren | modules/director/src/main/java/team/idealstate/hyper/director/impl/StdDirectionUnit.java:109-114 | the children in the order their names were first added |
| DirectionUnits.StdDirectionUnit.GetDepth | modules/director/src/main/java/team/idealstate/hyper/director/impl/StdDirectionUnit.java:117-128 | the depth is 0 for a root and for a child of a root, and otherwise the number of ancestors below the root |
| DirectionUnits.StdDirectionUnit.AddChild | modules/director/src/main/java/team/idealstate/hyper/director/impl/StdDirectionUnit.java:131-135 | a child that already has a parent is refused and nothing changes; otherwise it takes this unit as parent and is put under its name, replacing a child of the same name and keeping the order |
| DirectionUnits.StdDirectionUnit.RemoveChild | modules/director/src/main/java/team/idealstate/hyper/director/impl/StdDirectionUnit.java:138-144 | the child under the name leaves the map, the other children keep their order, and the removed child becomes a root; no other unit's parent changes |
| Directions.ExecNodeEffect | modules/director/src/main/java/team/idealstate/hyper/director/impl/StdDirection.java:140-188 | visiting one unit returns exactly when it sets SUCCESS, and changes the result only as execute may (see ExecListEffect) |
| Directions.ExecListEffect | modules/director/src/main/java/team/idealstate/hyper/director/impl/StdDirection.java:139-189 | an execute search only raises the accepted depth, and only to the depth of an accepted unit; the code only turns INTERRUPTED or SUCCESS; the data changes only on SUCCESS, and is then what the executor of an accepted unit at the last argument returned |
| Directions.ExecStopsAtSuccess | modules/director/src/main/java/team/idealstate/hyper/director/impl/StdDirection.java:184-187 | the search ends at the first SUCCESS: later units are never visited |
| Directions.TooDeepIgnored | modules/director/src/main/java/team/idealstate/hyper/director/impl/StdDirection.java:141-144 | units deeper than the last argument leave the result unchanged |
| Directions.DoExecute | modules/director/src/main/java/team/idealstate/hyper/director/impl/StdDirection.java:139-189 | the recursive loop leaves the result in the state the search specification computes |
| Directions.SizeOfElement | modules/director/src/main/java/team/idealstate/hyper/director/impl/StdDirection.java:184 | a unit of a list is no larger than the list, so the recursion into children terminates |
| Directions.ExamplesFromChildDepth | modules/director/src/main/java/team/idealstate/hyper/director/impl/StdDirection.java:101-114 | the examples hold exactly what the children at the next depth provide |
| Directions.GatherExamples | modules/director/src/main/java/team/idealstate/hyper/director/impl/StdDirection.java:101-114 | the loop over the children collects the examples of those at the next depth, in order |
| Directions.FilterPrefix | modules/director/src/main/java/team/idealstate/hyper/director/api/component/DirectionUnitCompleter.java:42-44 | the kept examples are exactly those that start with the incomplete argument, and there are no more of them than examples |
| Directions.DefaultComplete | modules/director/src/main/java/team/idealstate/hyper/director/api/component/DirectionUnitCompleter.java:38-45 | the default completer keeps exactly the examples starting with the incomplete argument |
| Directions.CompNodeEffect | modules/director/src/main/java/team/idealstate/hyper/director/impl/StdDirection.java:66-136 | visiting one unit returns exactly when it sets SUCCESS, and changes the result only as complete may (see CompListEffect) |
| Directions.CompListEffect | modules/director/src/main/java/team/idealstate/hyper/director/impl/StdDirection.java:65-137 | as for execute, and on SUCCESS the data is the completion of an accepted unit at the argument before the last, or the empty list when that unit has no children |
| Directions.CompStopsAtSuccess | modules/director/src/main/java/team/idealstate/hyper/director/impl/StdDirection.java:132-135 | the completion search ends at the first SUCCESS |
| Directions.ChildlessCompletesEmpty | modules/director/src/main/java/team/idealstate/hyper/director/impl/StdDirection.java:88-93 | an accepted, uninterrupted unit without children at the argument before the last ends the search with SUCCESS, its depth accepted and an empty list |
| Directions.DoComplete | modules/director/src/main/java/team/idealstate/hyper/director/impl/StdDirection.java:65-137 | the recursive loop leaves the result in the state the completion specification computes |
| Directions.StdDirection.constructor | modules/director/src/main/java/team/idealstate/hyper/director/impl/StdDirection.java:54-63 | a direction with a non-blank name starts with the given name and description and no units |
| Directions.StdDirection.Create | modules/director/src/main/java/team/idealstate/hyper/director/impl/StdDirection.java:58-63 | a blank name is rejected; otherwise a new direction with no units |
| Directions.StdDirection.SetName | modules/director/src/main/java/team/idealstate/hyper/director/impl/StdDirection.java:224-227 | a blank name is rejected and leaves the name; otherwise the name is replaced; nothing else changes |
| Directions.StdDirection.GetDirectionUnits | modules/director/src/main/java/team/idealstate/hyper/director/impl/StdDirection.java:243-248 | the units in the order their names were first added |
| Directions.StdDirection.AddDirectionUnit | modules/director/src/main/java/team/idealstate/hyper/director/impl/StdDirection.java:251-254 | the unit is put under its name, replacing one of the same name in its place |
| Directions.StdDirection.RemoveDirectionUnit | modules/director/src/main/java/team/idealstate/hyper/director/impl/StdDirection.java:257-260 | the unit under the name is removed and the others keep their order |
| Directions.StdDirection.Execute | modules/director/src/main/java/team/idealstate/hyper/director/impl/StdDirection.java:206-215 | no arguments give a fresh INVALID_COMMAND result without a search; otherwise the result the execute search computes from a fresh one |
| Directions.StdDirection.Complete | modules/director/src/main/java/team/idealstate/hyper/director/impl/StdDirection.java:193-202 | no arguments give a fresh INVALID_COMMAND result without a search; otherwise the result the completion search computes from a fresh one |
| Directors.Message | modules/director/src/main/java/team/idealstate/hyper/director/impl/StdDirector.java:73-84 | the message starts with the direction name and ends with " <"; with no accepted depth it is exactly the name and " <" |
| Directors.MessageLists | modules/director/src/main/java/team/idealstate/hyper/director/impl/StdDirector.java:73-84 | with an accepted depth, the message is the name, a space, the first min(length, depth) arguments separated by single spaces (empty ones at the front leave no separator), and " <" |
| Directors.BuildMessage | modules/director/src/main/java/team/idealstate/hyper/director/impl/StdDirector.java:73-84 | the joiner loop builds that message, and "name <" for a negative depth |
| Directors.Outcome | modules/director/src/main/java/team/idealstate/hyper/director/impl/StdDirector.java:58-71 | SUCCESS with data gives the data; INTERRUPTED gives the interception; anything else, or SUCCESS without data, gives the invalid-direction message built from the accepted depth |
| Directors.NoArgumentsInvalid | modules/director/src/main/java/team/idealstate/hyper/director/impl/StdDirector.java:113-137 | a detail without arguments is invalid with the message "name <", for execute and complete |
| Directors.ExecuteValueFromExecutor | modules/director/src/main/java/team/idealstate/hyper/director/impl/StdDirector.java:113-137 | a value execute returns is what the executor of an accepted unit at the last argument gave |
| Directors.ExecuteMessageDepth | modules/director/src/main/java/team/idealstate/hyper/director/impl/StdDirector.java:128-135 | an invalid execution's message is built from the search's accepted depth, which is -1 or the depth of an accepted unit |
| Directors.StdDirector.constructor | modules/director/src/main/java/team/idealstate/hyper/director/impl/StdDirector.java:47-56 | a new director has no directions and resolves lines with the resolver it was given |
| Directors.StdDirector.SetDirectionDetailResolver | modules/director/src/main/java/team/idealstate/hyper/director/impl/StdDirector.java:190-194 | the resolver is replaced and the directions are kept |
| Directors.StdDirector.RegisterDirection | modules/director/src/main/java/team/idealstate/hyper/director/impl/StdDirector.java:86-90 | the direction is put under its name, replacing one of the same name in its place |
| Directors.StdDirector.UnregisterDirection | modules/director/src/main/java/team/idealstate/hyper/director/impl/StdDirector.java:92-96 | a blank name is rejected and changes nothing; otherwise the direction under the name is removed, and an unknown name changes nothing |
| Directors.StdDirector.Execute | modules/director/src/main/java/team/idealstate/hyper/director/impl/StdDirector.java:113-137 | an unknown name is invalid with "name <"; otherwise the outcome of the direction's execute search |
| Directors.StdDirector.Complete | modules/director/src/main/java/team/idealstate/hyper/director/impl/StdDirector.java:157-182 | an unknown name is invalid with "name <"; otherwise the outcome of the direction's completion search |
| Directors.StdDirector.ExecuteLine | modules/director/src/main/java/team/idealstate/hyper/director/impl/StdDirector.java:98-111 | the line is resolved with the director's own resolver: a line it cannot resolve fails with the resolver's error; otherwise execute of the resolved detail. With StdDirectionDetailResolver as written, every line with an argument fails |
| Directors.StdDirector.CompleteLine | modules/director/src/main/java/team/idealstate/hyper/director/impl/StdDirector.java:139-155 | the line is resolved with the director's own resolver: a line it cannot resolve fails with the resolver's error; otherwise complete of the resolved detail |
| UnitBuilders.UnitBuilder.constructor | modules/director/src/main/java/team/idealstate/hyper/director/builder/impl/factory/StdDirectionUnitBuilder.java:54-61 | a new builder keeps the parent it was given, has no unit yet and no pending children |
| UnitBuilders.UnitBuilder.Create | modules/director/src/main/java/team/idealstate/hyper/director/builder/impl/factory/StdDirectionUnitBuilder.java:54-61 | as written: creation fails exactly when the parent is null, so a builder without a parent cannot be made; otherwise a fresh builder with that parent, no unit and no pending children |
| UnitBuilders.UnitBuilder.CreateCorrected | modules/director/src/main/java/team/idealstate/hyper/director/builder/impl/factory/StdDirectionUnitBuilder.java:54-61 | with the parent nullable as declared: every call gives a fresh builder with that parent, no unit and no pending children |
| UnitBuilders.UnitBuilder.Parent | modules/director/src/main/java/team/idealstate/hyper/director/builder/impl/factory/StdDirectionUnitBuilder.java:75-86 | fails with NoSuchParent exactly when there is no parent; otherwise returns the parent |
| UnitBuilders.UnitBuilder.Name | modules/director/src/main/java/team/idealstate/hyper/director/builder/impl/factory/StdDirectionUnitBuilder.java:90-98 | a blank name fails and changes nothing; otherwise the first call creates a unit with that name, no description, no parent and no children, and later calls rename the same unit keeping its parent and children; the pending children are untouched |
| UnitBuilders.UnitBuilder.Description | modules/director/src/main/java/team/idealstate/hyper/director/builder/impl/factory/StdDirectionUnitBuilder.java:102-107 | fails exactly when no unit exists; otherwise sets the description and keeps the name, parent and children |
| UnitBuilders.UnitBuilder.AddChild | modules/director/src/main/java/team/idealstate/hyper/director/builder/impl/factory/StdDirectionUnitBuilder.java:151-157 | fails, adding nothing, exactly when no unit exists or the name is blank; otherwise a fresh child builder whose parent is this builder, holding a root unit with that name, is appended to the pending children and returned |
| UnitBuilders.UnitBuilder.AddChildBuilder | modules/director/src/main/java/team/idealstate/hyper/director/builder/impl/factory/StdDirectionUnitBuilder.java:172-179 | fails exactly when no unit exists; otherwise a fresh child builder without a unit is appended to the pending children and handed to the caller |
| UnitBuilders.RemoveNamedKeeps | modules/director/src/main/java/team/idealstate/hyper/director/builder/impl/factory/StdDirectionUnitBuilder.java:186 | removeIf keeps only builders it was given; it completes exactly when every pending builder has a unit, and then keeps exactly the builders whose unit has another name |
| UnitBuilders.ScanPending | modules/director/src/main/java/team/idealstate/hyper/director/builder/impl/factory/StdDirectionUnitBuilder.java:186 | the loop over the pending list gives what removeIf leaves and whether it completed |
| UnitBuilders.UnitBuilder.RemoveChild | modules/director/src/main/java/team/idealstate/hyper/director/builder/impl/factory/StdDirectionUnitBuilder.java:183-188 | no unit or a blank name fails with an illegal argument and changes nothing; otherwise the pending children named that way are dropped, and a pending child without a unit stops the removal with a null-pointer failure |
| UnitBuilders.PutEntriesLastWins | modules/director/src/main/java/team/idealstate/hyper/director/builder/impl/factory/StdDirectionUnitBuilder.java:195-200 | after attaching the children in order, each child's name maps to the last unit attached under that name |
| UnitBuilders.PutEntriesKeeps | modules/director/src/main/java/team/idealstate/hyper/director/builder/impl/factory/StdDirectionUnitBuilder.java:195-200 | a child the unit already had keeps its place under a name no pending child uses |
| UnitBuilders.UnitBuilder.BuildNext | modules/director/src/main/java/team/idealstate/hyper/director/builder/impl/factory/StdDirectionUnitBuilder.java:196-199 | one round of the loop fails exactly when the first pending tree lacks a unit; otherwise the child's unit gets this unit as parent, is put into this unit's children under its name, and leaves the pending list, while the units attached before keep this unit as parent |
| UnitBuilders.UnitBuilder.Build | modules/director/src/main/java/team/idealstate/hyper/director/builder/impl/factory/StdDirectionUnitBuilder.java:192-203 | fails exactly when some builder of the pending tree has no unit; otherwise returns the same unit with its name and parent kept, its children extended by the pending children's units in order, and no pending children left; each pending child's unit then has this unit as its parent |
| BeanScopes.StdSingletonBeanScope.constructor | modules/context/src/main/java/team/idealstate/hyper/context/impl/bean/scope/StdSingletonBeanScope.java:55-56 | a new scope holds no final and no early bean |
| BeanScopes.StdSingletonBeanScope.AddEarlyBean | modules/context/src/main/java/team/idealstate/hyper/context/impl/bean/scope/StdSingletonBeanScope.java:59-85 | a blank name is refused as invalid and a name already final as duplicate, both leaving the scope as it was; otherwise the early map gets the bean under the name (the final map unchanged), the name then finds that bean, and no name is ever both early and final |
| BeanScopes.StdSingletonBeanScope.AddBean | modules/context/src/main/java/team/idealstate/hyper/context/impl/bean/scope/StdSingletonBeanScope.java:87-108 | the same two refusals; otherwise the name leaves the early map and the bean is put into the final map, the name then finds that bean, and no name is ever both early and final |
| BeanScopes.StdSingletonBeanScope.GetBeanByName | modules/context/src/main/java/team/idealstate/hyper/context/impl/bean/scope/StdSingletonBeanScope.java:128-137 | a blank name is refused; otherwise the final bean under the name, else the early one, and nothing exactly when the name is in neither map |
| BeanScopes.StdSingletonBeanScope.GetBean | modules/context/src/main/java/team/idealstate/hyper/context/impl/bean/scope/StdSingletonBeanScope.java:110-126 | a blank name is refused; otherwise a bean is returned exactly when the name finds one that is an instance of the type, and it is that bean |
| BeanScopes.FirstInstanceFinds | modules/context/src/main/java/team/idealstate/hyper/context/impl/bean/scope/StdSingletonBeanScope.java:143-153 | the scan finds an instance exactly when the values hold one, and then the first one in order |
| BeanScopes.FirstInstancePrefers | modules/context/src/main/java/team/idealstate/hyper/context/impl/bean/scope/StdSingletonBeanScope.java:143-153 | an instance among the final beans is preferred; only when there is none are the early beans searched |
| BeanScopes.FirstOf | modules/context/src/main/java/team/idealstate/hyper/context/impl/bean/scope/StdSingletonBeanScope.java:143-147 | the for-each loop returns the first instance of the type |
| BeanScopes.StdSingletonBeanScope.GetBeanByType | modules/context/src/main/java/team/idealstate/hyper/context/impl/bean/scope/StdSingletonBeanScope.java:139-154 | the first instance of the type among the final beans, in insertion order, else among the early beans |
| BeanScopes.CollectSpec | modules/context/src/main/java/team/idealstate/hyper/context/impl/bean/scope/StdSingletonBeanScope.java:160-170 | the linked set keeps what it held in front and gains exactly the instances of the type, never holding one twice |
| BeanScopes.CollectInto | modules/context/src/main/java/team/idealstate/hyper/context/impl/bean/scope/StdSingletonBeanScope.java:161-165 | the for-each loop adds each instance to the linked set in turn |
| BeanScopes.StdSingletonBeanScope.GetBeansByType | modules/context/src/main/java/team/idealstate/hyper/context/impl/bean/scope/StdSingletonBeanScope.java:156-175 | the instances of the type among the final beans, then those among the early beans, each once |
| BeanScopes.BeansByTypeOrder | modules/context/src/main/java/team/idealstate/hyper/context/impl/bean/scope/StdSingletonBeanScope.java:156-175 | the final instances come first, and the list holds every instance of either map exactly once |
| BeanRegistries.EmptyRegistry | modules/context/src/main/java/team/idealstate/hyper/context/impl/bean/definition/StdBeanDefinitionRegistry.java:57-58 | a new registry has no name and no class name indexed |
| BeanRegistries.StdBeanDefinitionRegistry.constructor | modules/context/src/main/java/team/idealstate/hyper/context/impl/bean/definition/StdBeanDefinitionRegistry.java:56-58 | a new registry has the given override policy and empty indexes |
| BeanRegistries.StdBeanDefinitionRegistry.SetOverridePolicy | modules/context/src/main/java/team/idealstate/hyper/context/impl/bean/definition/StdBeanDefinitionRegistry.java:61-65 | the policy is replaced and the indexes are untouched |
| BeanRegistries.PutByClassName | modules/context/src/main/java/team/idealstate/hyper/context/impl/bean/definition/StdBeanDefinitionRegistry.java:71-78 | the class's set stays a linked set, created with the definition when the class is new |
| BeanRegistries.PutByClassNameAdds | modules/context/src/main/java/team/idealstate/hyper/context/impl/bean/definition/StdBeanDefinitionRegistry.java:71-78 | the definition joins its class's set; every other set is left as it was and no set loses a definition |
| BeanRegistries.StoreKeepsValid | modules/context/src/main/java/team/idealstate/hyper/context/impl/bean/definition/StdBeanDefinitionRegistry.java:92-97 | storing under the name and in the class's set keeps the indexes consistent: each definition by name sits under its own name and in its class's set |
| BeanRegistries.Register | modules/context/src/main/java/team/idealstate/hyper/context/impl/bean/definition/StdBeanDefinitionRegistry.java:80-99 | the single registration rule keeps the indexes consistent |
| BeanRegistries.RegisterRule | modules/context/src/main/java/team/idealstate/hyper/context/impl/bean/definition/StdBeanDefinitionRegistry.java:80-99 | a null definition changes nothing; a new name is stored last with the definition added to its class's set; a known name is replaced exactly when the definition differs in some field, `lazy` included, and the policy agrees, keeping its place, and otherwise nothing changes |
| BeanRegistries.ClassSetsOnlyGrow | modules/context/src/main/java/team/idealstate/hyper/context/impl/bean/definition/StdBeanDefinitionRegistry.java:71-78 | registration never removes a definition from a class-name set |
| BeanRegistries.OverriddenStaysByClass | modules/context/src/main/java/team/idealstate/hyper/context/impl/bean/definition/StdBeanDefinitionRegistry.java:88-94 | a replaced definition can still be found by its class name |
| BeanRegistries.RegisterAll | modules/context/src/main/java/team/idealstate/hyper/context/impl/bean/definition/StdBeanDefinitionRegistry.java:132-134 | registering a list keeps the indexes consistent |
| BeanRegistries.RegisterAllDefines | modules/context/src/main/java/team/idealstate/hyper/context/impl/bean/definition/StdBeanDefinitionRegistry.java:132-134 | after a list, every name it mentions is defined, and a name it does not mention keeps its definition |
| BeanRegistries.StdBeanDefinitionRegistry.DoRegisterBeanDefinition | modules/context/src/main/java/team/idealstate/hyper/context/impl/bean/definition/StdBeanDefinitionRegistry.java:80-99 | the fields become the indexes the single rule gives, and the policy is kept |
| BeanRegistries.StdBeanDefinitionRegistry.RegisterBeanDefinition | modules/context/src/main/java/team/idealstate/hyper/context/impl/bean/definition/StdBeanDefinitionRegistry.java:101-118 | a null argument is refused and changes nothing; otherwise the single rule is applied |
| BeanRegistries.StdBeanDefinitionRegistry.RegisterBeanDefinitions | modules/context/src/main/java/team/idealstate/hyper/context/impl/bean/definition/StdBeanDefinitionRegistry.java:120-142 | the indexes become those of registering each element in order, null ones skipped by the rule |
| BeanRegistries.StdBeanDefinitionRegistry.GetBeanDefinitionByName | modules/context/src/main/java/team/idealstate/hyper/context/impl/bean/definition/StdBeanDefinitionRegistry.java:144-148 | a definition is found exactly when the name is indexed, and it carries that name and is listed under its class name |
| BeanRegistries.StdBeanDefinitionRegistry.GetBeanDefinitionByClassName | modules/context/src/main/java/team/idealstate/hyper/context/impl/bean/definition/StdBeanDefinitionRegistry.java:150-158 | an unknown class gives the empty list; the list never repeats a definition and holds only definitions of that class |
| JavaPlugins.UpperCase | buildSrc/src/main/kotlin/team/idealstate/hyper/gradle/module/java/JavaPlugin.kt:290-291 | a lower-case letter becomes its upper-case letter; any other character is kept |
| JavaPlugins.HyperConfigurationName | buildSrc/src/main/kotlin/team/idealstate/hyper/gradle/module/java/JavaPlugin.kt:287-295 | the shadow name is "hyper" followed by the name with its first letter upper-cased and the rest kept; an empty name is outside the function, as indexing its first character fails |
| JavaPlugins.HyperNameCollides | buildSrc/src/main/kotlin/team/idealstate/hyper/gradle/module/java/JavaPlugin.kt:287-295 | two names get the same shadow exactly when they differ at most in the case of their first letter |
| JavaPlugins.CompileClasspathShadowName | buildSrc/src/main/kotlin/team/idealstate/hyper/gradle/module/java/JavaPlugin.kt:76 | the compile classpath's shadow is "hyperCompileClasspath" |
| JavaPlugins.RuntimeClasspathShadowName | buildSrc/src/main/kotlin/team/idealstate/hyper/gradle/module/java/JavaPlugin.kt:77 | the runtime classpath's shadow is "hyperRuntimeClasspath" |
| JavaPlugins.CompileShadowNames | buildSrc/src/main/kotlin/team/idealstate/hyper/gradle/module/java/JavaPlugin.kt:78-81 | the compile-side shadows are "hyperCompileOnly" and "hyperCompileOnlyApi" |
| JavaPlugins.RuntimeShadowNames | buildSrc/src/main/kotlin/team/idealstate/hyper/gradle/module/java/JavaPlugin.kt:79-82 | the runtime-side shadows are "hyperImplementation", "hyperRuntimeOnly" and "hyperApi" |
| JavaPlugins.Step | buildSrc/src/main/kotlin/team/idealstate/hyper/gradle/module/java/JavaPlugin.kt:85-94 | a call succeeds exactly when the native exists and its shadow name is free; a missing native fails as unknown and a taken shadow name as a duplicate; success adds exactly the shadow |
| JavaPlugins.StepValue | buildSrc/src/main/kotlin/team/idealstate/hyper/gradle/module/java/JavaPlugin.kt:88-93 | the new shadow extends from nothing; the native and each sub-configuration gain the shadow, and every other configuration keeps its set |
| JavaPlugins.AddEdgesSpec | buildSrc/src/main/kotlin/team/idealstate/hyper/gradle/module/java/JavaPlugin.kt:89-92 | each configuration named gains the shadow and every other keeps its set |
| JavaPlugins.ConfigurationContainer.constructor | buildSrc/src/main/kotlin/team/idealstate/hyper/gradle/module/java/JavaPlugin.kt:86 | the container starts with the given configurations |
| JavaPlugins.ConfigurationContainer.CreateHyperConfiguration | buildSrc/src/main/kotlin/team/idealstate/hyper/gradle/module/java/JavaPlugin.kt:85-94 | the container ends as the call's specification says and returns the shadow's name, or is unchanged and returns the call's error |
| JavaPlugins.ApplyAllFirst | buildSrc/src/main/kotlin/team/idealstate/hyper/gradle/module/java/JavaPlugin.kt:75-83 | a run whose first call succeeds continues with the rest |
| JavaPlugins.ApplyAllFails | buildSrc/src/main/kotlin/team/idealstate/hyper/gradle/module/java/JavaPlugin.kt:75-83 | a run whose first call fails fails with that call's error |
| JavaPlugins.ApplyAllOk | buildSrc/src/main/kotlin/team/idealstate/hyper/gradle/module/java/JavaPlugin.kt:75-83 | when no native is an earlier shadow and no two shadows coincide, a run succeeds exactly when every native exists and no shadow name is taken at the start |
| JavaPlugins.ApplyAllKeys | buildSrc/src/main/kotlin/team/idealstate/hyper/gradle/module/java/JavaPlugin.kt:75-83 | a successful run adds exactly the shadows of its calls |
| JavaPlugins.ApplyAllValues | buildSrc/src/main/kotlin/team/idealstate/hyper/gradle/module/java/JavaPlugin.kt:75-83 | in a successful run each configuration gains exactly the shadows of the calls that name it |
| JavaPlugins.ApplyAllNativeEdges | buildSrc/src/main/kotlin/team/idealstate/hyper/gradle/module/java/JavaPlugin.kt:75-83 | in a successful run every native extends from its own shadow |
| JavaPlugins.ApplyAllSubEdges | buildSrc/src/main/kotlin/team/idealstate/hyper/gradle/module/java/JavaPlugin.kt:75-83 | in a successful run every sub-configuration extends from the shadow of its call |
| JavaPlugins.StepsNoClash | buildSrc/src/main/kotlin/team/idealstate/hyper/gradle/module/java/JavaPlugin.kt:75-83 | the seven calls never use an earlier shadow as a native and never create the same shadow twice |
| JavaPlugins.StepsSubsPresent | buildSrc/src/main/kotlin/team/idealstate/hyper/gradle/module/java/JavaPlugin.kt:75-83 | each call names as sub-configuration only a classpath shadow an earlier call created |
| JavaPlugins.CreateHyperConfigurationsSpec | buildSrc/src/main/kotlin/team/idealstate/hyper/gradle/module/java/JavaPlugin.kt:75-83 | the seven calls succeed exactly when all seven natives exist and no shadow name is taken, and then each native extends from its shadow and the compile and runtime natives also feed the classpath shadow of their side |
| JavaPlugins.ConfigurationContainer.Shadow | buildSrc/src/main/kotlin/team/idealstate/hyper/gradle/module/java/JavaPlugin.kt:76-82 | one call of the sequence: on success the run's outcome is that of the calls after it, on failure its error |
| JavaPlugins.ConfigurationContainer.CreateHyperConfigurations | buildSrc/src/main/kotlin/team/idealstate/hyper/gradle/module/java/JavaPlugin.kt:75-83 | the container ends in the outcome of the seven calls in order, or the first failing call's error is returned |
| JavaPlugins.GetDependencies | buildSrc/src/main/kotlin/team/idealstate/hyper/gradle/module/java/JavaPlugin.kt:298-311 | the loop gives the linked set of the first-level modules |
| JavaPlugins.DependenciesOnceInOrder | buildSrc/src/main/kotlin/team/idealstate/hyper/gradle/module/java/JavaPlugin.kt:298-311 | every module of the configuration is listed exactly once, in the order it first appears |
| JavaPlugins.ListedRepositories | buildSrc/src/main/kotlin/team/idealstate/hyper/gradle/module/java/JavaPlugin.kt:157-175 | the descriptor never lists more repositories than the project has |
| JavaPlugins.ListedExactlyAnonymous | buildSrc/src/main/kotlin/team/idealstate/hyper/gradle/module/java/JavaPlugin.kt:157-175 | an entry is listed exactly when a Maven repository not on the file scheme, with no user name, no password and no authentication, has that name and URL |
| JavaPlugins.DependencyDescriptor | buildSrc/src/main/kotlin/team/idealstate/hyper/gradle/module/java/JavaPlugin.kt:152-189 | no descriptor is written exactly when the runtime shadow has no first-level dependency; otherwise it holds the listed repositories and the modules once each |
| JavaPlugins.RewriteAssetPath | buildSrc/src/main/kotlin/team/idealstate/hyper/gradle/module/java/JavaPlugin.kt:142-151 | a path under "assets/" gets the project name inserted as a directory after "assets/"; any other path is kept |
| JavaPlugins.RewriteAssetPathInverse | buildSrc/src/main/kotlin/team/idealstate/hyper/gradle/module/java/JavaPlugin.kt:142-151 | a path under "assets/" moves under "assets/<project>/", and dropping the project directory gives the path back; other paths are kept |
| MavenPublishing.EntryOf | buildSrc/src/main/kotlin/team/idealstate/hyper/gradle/module/maven_publish/MavenPublishPlugin.kt:131-135 | a dependency element carries the dependency's group:name:version and the scope of its loop |
| MavenPublishing.CompileEntries | buildSrc/src/main/kotlin/team/idealstate/hyper/gradle/module/maven_publish/MavenPublishPlugin.kt:121-137 | one compile-scoped element per compile dependency, in order |
| MavenPublishing.WithXml | buildSrc/src/main/kotlin/team/idealstate/hyper/gradle/module/maven_publish/MavenPublishPlugin.kt:117-158 | the two loops leave the dependencies node holding the compile elements and then the runtime ones whose id was not emitted before, and no node at all when nothing was emitted |
| MavenPublishing.CompileEntriesFirst | buildSrc/src/main/kotlin/team/idealstate/hyper/gradle/module/maven_publish/MavenPublishPlugin.kt:121-137 | the compile dependencies come first, in order, scoped "compile"; every element after them is scoped "runtime" |
| MavenPublishing.RuntimeEntriesFresh | buildSrc/src/main/kotlin/team/idealstate/hyper/gradle/module/maven_publish/MavenPublishPlugin.kt:139-157 | a runtime element never repeats an id emitted before it, and no two runtime elements share an id |
| MavenPublishing.RuntimeEntriesComplete | buildSrc/src/main/kotlin/team/idealstate/hyper/gradle/module/maven_publish/MavenPublishPlugin.kt:139-157 | a runtime dependency gets an element unless its id was emitted before |
| MavenPublishing.RuntimeEntriesSound | buildSrc/src/main/kotlin/team/idealstate/hyper/gradle/module/maven_publish/MavenPublishPlugin.kt:139-157 | every runtime element is the runtime element of a runtime dependency |
| MavenPublishing.EveryDependencyListed | buildSrc/src/main/kotlin/team/idealstate/hyper/gradle/module/maven_publish/MavenPublishPlugin.kt:117-158 | every dependency of either classpath appears in the POM under its id |
| MavenPublishing.NodeAbsentIff | buildSrc/src/main/kotlin/team/idealstate/hyper/gradle/module/maven_publish/MavenPublishPlugin.kt:118-158 | the dependencies node is left out exactly when neither classpath has a dependency |
| MavenPublishing.IdInjective | buildSrc/src/main/kotlin/team/idealstate/hyper/gradle/module/maven_publish/MavenPublishPlugin.kt:127 | with no colon in groups and names, the id determines the module |
| MavenPublishing.EntriesAtMostOnce | buildSrc/src/main/kotlin/team/idealstate/hyper/gradle/module/maven_publish/MavenPublishPlugin.kt:117-158 | each group:name:version appears at most once in the POM when the compile list repeats no module and groups and names hold no colon |
| MavenPublishing.PublicationArtifactsAsWritten | buildSrc/src/main/kotlin/team/idealstate/hyper/gradle/module/maven_publish/MavenPublishPlugin.kt:161-167 | as written: a jar publication carries the sources, javadoc and main jars; any other packaging is refused with a message that renders the whole publication after the quote |
| MavenPublishing.PackagingMessageCounterexample | buildSrc/src/main/kotlin/team/idealstate/hyper/gradle/module/maven_publish/MavenPublishPlugin.kt:166 | for a "war" publication the message as written does not name "war" but the rendering of the publication, and differs from the message that names the packaging |
| MavenPublishing.PublicationArtifacts | buildSrc/src/main/kotlin/team/idealstate/hyper/gradle/module/maven_publish/MavenPublishPlugin.kt:161-167 | a jar publication carries the sources, javadoc and main jars; any other packaging is refused with a message that ends with the packaging and the closing quote |
| MavenPublishing.TryConfigureSigning | buildSrc/src/main/kotlin/team/idealstate/hyper/gradle/module/maven_publish/MavenPublishPlugin.kt:175-186 | as written: reading a property that is not defined throws, naming the first undefined one of executable, key name and passphrase; with all three defined, signing is set up exactly when all are set, and then applies the signing plugin and signs every publication |
| MavenPublishing.UndefinedSigningFails | buildSrc/src/main/kotlin/team/idealstate/hyper/gradle/module/maven_publish/MavenPublishPlugin.kt:176-178 | a project that defines none of the signing properties fails on the executable property |
| MavenPublishing.TryConfigureSigningCorrected | buildSrc/src/main/kotlin/team/idealstate/hyper/gradle/module/maven_publish/MavenPublishPlugin.kt:175-186 | signing is set up exactly when all three properties are set, and an undefined property counts as unset |
| MavenPublishing.SigningCorrectedAgrees | buildSrc/src/main/kotlin/team/idealstate/hyper/gradle/module/maven_publish/MavenPublishPlugin.kt:175-186 | where the code as written succeeds it agrees with the corrected version, and where it throws the corrected version skips signing |
| MavenPublishing.ConfigurePom | buildSrc/src/main/kotlin/team/idealstate/hyper/gradle/module/maven_publish/MavenPublishPlugin.kt:73-115 | the POM is named after the project, lists the build's developers in order, and has a license element exactly when the publication has a license |
| MavenPublishing.PomRoundTrip | buildSrc/src/main/kotlin/team/idealstate/hyper/gradle/module/maven_publish/MavenPublishPlugin.kt:73-115 | the POM loses nothing of the publication: reading it back gives the publication |
| HyperJars.DevelopersText | buildSrc/src/main/kotlin/team/idealstate/hyper/gradle/module/java/task/AbstractHyperJar.kt:27-30 | the developer list is enclosed in one pair of single quotes |
| HyperJars.DevelopersTextFew | buildSrc/src/main/kotlin/team/idealstate/hyper/gradle/module/java/task/AbstractHyperJar.kt:27-30 | no developers give "''" and one developer is quoted alone as "(id) name <email>" |
| HyperJars.DevelopersTextAppend | buildSrc/src/main/kotlin/team/idealstate/hyper/gradle/module/java/task/AbstractHyperJar.kt:27-30 | a further developer goes before the closing quote, after ", " |
| HyperJars.HyperKeysDistinct | buildSrc/src/main/kotlin/team/idealstate/hyper/gradle/module/java/task/AbstractHyperJar.kt:33-39 | the six Hyper-* keys are distinct |
| HyperJars.HyperAttributes | buildSrc/src/main/kotlin/team/idealstate/hyper/gradle/module/java/task/AbstractHyperJar.kt:32-39 | the computed attributes are a well-formed ordered map whose keys are the six Hyper-* keys in their order |
| HyperJars.HyperAttributesSpec | buildSrc/src/main/kotlin/team/idealstate/hyper/gradle/module/java/task/AbstractHyperJar.kt:32-39 | the computed attributes hold the six Hyper-* keys in their order, each with its value |
| HyperJars.MergedAttributes | buildSrc/src/main/kotlin/team/idealstate/hyper/gradle/module/java/task/AbstractHyperJar.kt:40 | the merged attributes form a well-formed linked map |
| HyperJars.MergedAttributesSpec | buildSrc/src/main/kotlin/team/idealstate/hyper/gradle/module/java/task/AbstractHyperJar.kt:40 | the six Hyper-* keys come first, then the other declared keys; a declared attribute keeps its value even under a Hyper-* key, and a Hyper-* key nobody declared carries the computed value |
| HyperJars.Manifest.constructor | buildSrc/src/main/kotlin/team/idealstate/hyper/gradle/module/java/task/AbstractHyperJar.kt:31 | the manifest starts with the declared attributes |
| HyperJars.Manifest.Copy | buildSrc/src/main/kotlin/team/idealstate/hyper/gradle/module/java/task/AbstractHyperJar.kt:26-44 | after copy the manifest holds exactly the merged attributes |
| BuildEntities.PublicationText | buildSrc/src/main/kotlin/team/idealstate/hyper/gradle/module/maven_publish/entity/Publication.kt:15-23 | the data-class rendering starts with "Publication(" |
| LinkedMaps.LinkedMap.Values | modules/context/src/main/java/team/idealstate/hyper/context/impl/bean/scope/StdSingletonBeanScope.java:143 | the values in the order of their keys |
| LinkedMaps.LinkedMap.Put | buildSrc/src/main/kotlin/team/idealstate/hyper/gradle/module/java/task/AbstractHyperJar.kt:33-39 | a put sets the value; a new key goes last and an existing key keeps its place |
| LinkedMaps.LinkedMap.Remove | modules/context/src/main/java/team/idealstate/hyper/context/impl/bean/scope/StdSingletonBeanScope.java:99 | a remove drops the key and its value, the other keys keeping their order |
| LinkedMaps.EmptyMap | buildSrc/src/main/kotlin/team/idealstate/hyper/gradle/module/java/task/AbstractHyperJar.kt:32 | a new map has no keys |
| LinkedMaps.AddLast | buildSrc/src/main/kotlin/team/idealstate/hyper/gradle/module/java/JavaPlugin.kt:302-308 | a linked-set add appends an element not yet present and otherwise changes nothing |
| LinkedMaps.AddAllSpec | buildSrc/src/main/kotlin/team/idealstate/hyper/gradle/module/java/JavaPlugin.kt:300-310 | adding a list to a linked set keeps the old elements in front, holds exactly the old and the new elements, and orders the new ones by first appearance |
| LinkedMaps.PutEachSpec | buildSrc/src/main/kotlin/team/idealstate/hyper/gradle/module/java/task/AbstractHyperJar.kt:40 | putAll: every key of the source carries its value from the source, every other key keeps its value, and the keys already present keep their places in front |
| LinkedMaps.PutAllOf | buildSrc/src/main/kotlin/team/idealstate/hyper/gradle/module/java/task/AbstractHyperJar.kt:40 | the loop over the source's entries gives putAll |
| LinkedMaps.PutEachFresh | buildSrc/src/main/kotlin/team/idealstate/hyper/gradle/module/java/task/AbstractHyperJar.kt:41-42 | distinct keys put into an empty map keep their order |
| LinkedMaps.PutAllIntoEmpty | buildSrc/src/main/kotlin/team/idealstate/hyper/gradle/module/java/task/AbstractHyperJar.kt:41-42 | putting a map into a cleared map gives that map back |

## Left out

- Locks and timeouts: the singleton scope and the definition registry take a `ReentrantLock` with a three-second timeout; the model treats the lock as always acquired, so the timed-out and interrupted paths (which log and return) are absent.
- Logging, printing and the `AssertUtils` messages: a failed check is an `Err` value without its message text.
- `BigIntegerUtils` cache concurrency: the cache is a `ConcurrentHashMap`; the model is a sequential map.
- `StringJoiner` capacity: the initial capacity is checked (a value below 1 is rejected) but not stored, since it only sizes the buffer.
- `StringJoiner.append(float)` and `append(double)`: floating-point text is not modelled.
- `ArrayUtils.copyOfRange` nested arrays: an element that is itself an array is copied recursively in the source; the model treats elements as opaque values.
- ArrayUtils.IsEmpty: the source throws on a null array through `AssertUtils.notNull`; the model takes a non-null array by type.
- `ArrayUtils.isArray` and `isNullOrArray`: these ask the runtime class and are not modelled.
- Class loading: `ClassUtils.forName` and the class part of `forDesc` call `Class.forName`; the model keeps the primitive table and treats other classes by name.
- ClassUtils.GetAncestorClasses: states that every ancestor occurs once and nothing else does, but not the order in which the deque visits them.
- `MethodUtils.getAncestorMethods` uses reflection over declared methods and is not part of this model.
- MethodUtils.RoundTrip: the round trip is proved for primitive classes and for non-array classes whose names hold no descriptor delimiter, not for array types.
- Cyclic parents: a unit whose parent chain loops is not representable; the model's depth walk assumes the tree the source builds.
- Unit callbacks: the interceptor, argument acceptor, example-list provider, executor and completer are pure functions of the arguments and the depth, held in a value snapshot of the unit tree (`Directions.Node`); their setters on units and builders are not separate members.
- `ArgumentAcceptor` and `ExampleListProvider` defaults: a missing acceptor or provider is modelled by its absence in the snapshot, not by the interfaces' default objects.
- `DirectionContext` and the context preparation of `StdDirection` are not modelled; the callbacks see the arguments and the depth only.
- The `StdDirector` context factory and its setter, and the director factories: the context is not modelled (see `DirectionContext` above). The resolver is a field of the director; `DirectionResolver.Resolve` models `StdDirectionDetailResolver` as written, which fails on every line with an argument.
- `StdDirectionUnitBuilder.root()` returns the direction builder, which is not part of this model.
- `StdDirectionUnitBuilder.addChild(name, description)` is `AddChild` followed by `Description` on the returned builder, not a separate member.
- UnitBuilders.UnitBuilder.Build: on failure the contract says only that some pending builder had no unit; it does not state which children were attached, and given this unit as their parent, before the failing one.
- Text as UTF-16: Java strings are sequences of UTF-16 code units, and `length`, `charAt`, `toCharArray` and `split` count and cut code units; the model's `string` is a sequence of Unicode scalar values. The two agree on text without surrogate pairs; for text with characters outside the Basic Multilingual Plane the model does not capture the source's indexes or a cut through a surrogate pair. This concerns HexUtils.HexToBin and HexUtils.Unhex, StringJoiner.Joiner.AppendRange, StringJoiner.Joiner.AppendFrom and StringJoiner.Joiner.AppendCharsFrom, StringUtils.CountMatches and the other index-based `StringUtils` members, and DirectionResolver.Fields and DirectionResolver.Resolve.
- Null beans and null bean types: the scope's arguments are non-null values by type.
- `OverridePolicy.DEFAULT` is not part of this model: the registry is given its policy as a function.
- Gradle glue: task creation, extension lookup, the Java compile, Javadoc and toolchain settings, and the POM XML itself (modelled as lists of entries) are outside the model.
- File I/O: `JavaPlugin.copyFile`, the creation of the assets directories and the writing of the JSON descriptor; the model computes the descriptor's content.
- `JavaPlugins.UpperCase`: `Character.isLowerCase` and `uppercaseChar` are modelled for ASCII letters only.
- Manifest values: the source puts `Any` values (project group and version objects); the model uses their text.
- The build timestamp in `Hyper-Built-By` is a parameter of `HyperJars.Manifest.Copy`, as the clock is outside the model.
- Manifest precedence: `attrs += attributes` (AbstractHyperJar.kt:40) puts the declared attributes over the computed `Hyper-*` ones, so a declared attribute wins, and the model follows that.

## Findings

| source | as written | input that shows it | evidently intended | confidence | as-written member | corrected member |
|---|---|---|---|---|---|---|
| modules/core/src/main/java/team/idealstate/hyper/core/common/uid/UUIDUtils.java:38-120 | with the swap flag, uuidToBin exchanges byte pairs by the RESTORE table while binToUUID gathers them by the SWAP table, and the two are not inverse | a UUID whose most significant bits are 0x0001020304050607 comes back as 0x0405060702030001 | binToUUID(uuidToBin(u, true), true) == u | not executed | UUIDUtils.SwapRoundTripAsWritten, UUIDUtils.SwapRoundTripFails | UUIDUtils.ToBinCorrected, UUIDUtils.CorrectedRoundTrip |
| modules/core/src/main/java/team/idealstate/hyper/core/common/string/StringUtils.java:181-192 | after a mismatch the scan resets without comparing the current character with the pattern's first one | countMatches("aab", "ab") is 0 | 1, the number of non-overlapping occurrences | not executed | StringUtils.CountMatches, StringUtils.CountMatchesMissesOverlappingStart | StringUtils.CountMatchesCorrected |
| modules/core/src/main/java/team/idealstate/hyper/core/common/string/StringJoiner.java:159-174 | the check treats len as an end index, while StringBuilder.append(char[], offset, len) reads it as a count, and append(chars, offset) passes the array length | append("abc" as chars, 1) passes the check, then fails inside StringBuilder after the delimiter and prefix were written | offset and len checked as offset + len <= length, or the end index passed as an end | not executed | StringJoiner.Joiner.AppendChars, StringJoiner.AppendCharsFromFails | StringJoiner.Joiner.AppendCharsCorrected |
| modules/common/src/main/java/team/idealstate/hyper/common/array/ArrayUtils.java:81-95 | the copy has len - offset elements, yet arraycopy copies len elements and the loop writes at index i from offset | copyOfRange of a two-element array from offset 1 to 2 throws IndexOutOfBounds on both paths | the copy holds source[offset..len] | not executed | ArrayUtils.CopyRangeFromOneFails | ArrayUtils.CopyOfRangeCorrected |
| modules/director/src/main/java/team/idealstate/hyper/director/impl/StdDirectionDetailResolver.java:52-53 | the arguments are taken with copyOfRange(tokens, 1), which inherits the copy bug above | resolving "/a b" fails | the arguments are the tokens after the name | not executed | DirectionResolver.ResolveWithArgumentsFails | DirectionResolver.ResolveCorrected |
| modules/common/src/main/java/team/idealstate/hyper/common/math/BigIntegerUtils.java:43-55 | the leading-zero strip removes every zero of an all-zero string longer than one character | valueOf("00") hands "" to new BigInteger, which rejects it | "00" has the value 0 | not executed | BigIntegerUtils.ValueOfDoubleZeroFails | BigIntegerUtils.CorrectedValueOf |
| modules/core/src/main/java/team/idealstate/hyper/core/common/reflect/MethodUtils.java:89-93 | an 'L' right after ')' is accepted only after a parameter or a '[' | "()Ljava.lang.Object;" is rejected | the descriptor of a no-argument method returning Object is valid | not executed | MethodUtils.ObjectReturnRejected | MethodUtils.ObjectReturnCorrected |
| modules/core/src/main/java/team/idealstate/hyper/core/common/reflect/MethodUtils.java:103 | the scanned class name is passed to forDesc without its 'L' and ';', and forDesc strips a first and last character again when the name starts with 'L' | "(LLexer;)V" reads its parameter as the class "exe" | the parameter is the class Lexer | not executed | MethodUtils.LeadingLNameMangled | MethodUtils.LeadingLNameCorrected |
| modules/director/src/main/java/team/idealstate/hyper/director/builder/impl/factory/StdDirectionUnitBuilder.java:57 | the constructor rejects a null parent although the parameter is declared nullable and parent() reports a missing parent | creating a builder with no parent fails | a builder without a parent can be made, and parent() reports NoSuchParent | not executed | UnitBuilders.UnitBuilder.Create | UnitBuilders.UnitBuilder.CreateCorrected |
| buildSrc/src/main/kotlin/team/idealstate/hyper/gradle/module/maven_publish/MavenPublishPlugin.kt:176-178 | the signing properties are read with `property`, which throws for a property the project does not define, before the null checks that would skip signing | a project that defines none of the gnupg properties fails the build | signing is skipped when a property is missing | not executed | MavenPublishing.TryConfigureSigning, MavenPublishing.UndefinedSigningFails | MavenPublishing.TryConfigureSigningCorrected, MavenPublishing.SigningCorrectedAgrees |
| buildSrc/src/main/kotlin/team/idealstate/hyper/gradle/module/maven_publish/MavenPublishPlugin.kt:166 | the template "$publication.packaging" renders the whole publication followed by the text ".packaging" | a publication with packaging "war" gets a message that does not name "war" | the message names the packaging | not executed | MavenPublishing.PublicationArtifactsAsWritten, MavenPublishing.PackagingMessageCounterexample | MavenPublishing.PublicationArtifacts |
