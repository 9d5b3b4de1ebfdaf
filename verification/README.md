# Verified models of the decimal, JSON and inspector core

This project models the parts of the v8-inspector repository that compute, keep invariants or speak a protocol,
and proves properties of the models. `dafny verify dfyconfig.toml` verifies the whole project.

## What is modelled

**Decimal** (`Source/platform/Decimal.cpp`). An eighteen-digit decimal floating point number with exponents from
-1023 to 1023. A finite decimal stands for the integer `Value(d)` = sign · coefficient · 10^(exponent + 1023), so
every statement about values is about integers and is exact. The files go bottom-up: `PowersOfTen`, `Text`,
`Sequences`, `DecimalPrimitives` and `WideIntegers` (64-bit and 128-bit arithmetic), `DecimalNumber` (encoding), `DecimalAddition`,
`DecimalComparison`, `DecimalMonotonicity` (addition and the order of values), `DecimalProduct`,
`DecimalProductEncodings`, `DecimalQuotient`, `DecimalSpecials`, `DecimalRounding`, `DecimalParser`,
`Numerals` and `ParserCorrectness` (what the automaton reads and means), `ParserExamples`, `DecimalPrinter`,
`DecimalRoundTrip` and `DecimalPrintError`. Loops are methods; each is proved against a function of its inputs, and the lemmas say what that
function means. `uint64` and `uint32` are bounded types, so every assignment proves that nothing wraps; where the
code relies on wrapping or meets it, `Wrap` is written out.

**JSON** (`Source/platform/JSONValues.cpp`, `Source/core/inspector/JSONParser.cpp`). `JsonTree` has the values,
`JsonWriter` the compact and the pretty writer, `JsonObject` the object that keeps a dictionary beside an order
vector, `JsonParser` the parser as functions of the text that remains, `JsonScanner` the same parser as loops that
move a position. `JsonGrammar` is a reader for the grammar of RFC 7159 and nothing beyond it: four white space
characters, exact literals, no raw control characters, the eight short escapes, and any depth. `JsonTokens` and
`JsonWritten` prove that what the writers write is read by it as the tree that was written, `JsonRoundTrip` what
`parseJSON` makes of everything that it reads, `JsonSpelling` what else `parseJSON` accepts, `JsonNumbers` what becomes of the numbers, `JsonPretty` the relation of the two layouts, `JsonLayout` how pretty text
is laid out, `JsonCharacters` the characters that can occur, `JsonParsed` what all parsed trees have in common. A
number leaf is a decimal when it is written and a lexeme when it is parsed.

**Inspector protocol** (`Source/v8inspector`, `Source/core/InspectorBackendDispatcher.cpp`). `Handoff` is the server
that passes connections and messages from the IO thread to the main thread, as a state machine over every
interleaving and as two classes. `Dispatcher` is the command dispatcher with its one-shot callbacks, as a state
machine that allows re-entrant agents; `DispatcherObjects` has the classes and the parameter checks.

**Data structures** (`Source/wtf`, `Source/platform`). `ArrayBuffers` (doubly linked view list and transfer),
`BloomFilters` (saturating counters), `BitVectors` and `BitVectorRuns` (inline or out-of-line words, and whole runs
over several vectors), `CheckedArithmetic` (overflow-checked integers), `Lifecycle` and `LifecycleObjects` (contexts
and their observers).

## Where the code and its purpose part

The lemmas named give inputs on which the code does not do what one would expect of it, and say exactly when it does.

- A decimal does not always survive printing and parsing. It does exactly when `DecimalRoundTrip.Survives` holds:
  `RoundTrip`, `ThirteenDigitsSurvive`; `TopBecomesInfinite`, `SixteenthDigitIsRounded` and `LastPlaceIsCut` are
  inputs. What comes back otherwise is bounded by `PrintError`.
- A text whose exponent is too large can become infinity although the number fits, or a finite number although it
  does not, because the scaled accumulator wraps; one whose exponent is too small can become positive zero although
  the number fits and is negative. `ParseMeaning` has the exact condition, over all numerals;
  `RepresentableBecomesInfinity`, `HugeExponentBecomesInfinity`, `TooLargeBecomesFinite` and
  `SmallExponentLosesItsSign` are inputs.
- The grammar in `Source/platform/Decimal.h:146-151` is not the language of the automaton: `1.` and `+.5` are not
  numbers for it, `.e5` is, and nothing after an exponent above 1041 is looked at. `ParserLanguage` describes the
  language that is accepted; the model follows the code.
- A product of equal numbers can differ with their encodings (`EncodingDecidesUnderflow`). It does exactly when the
  exponents leave the range in different ways (`ProductRespectsEquality`). Sums never do (`SumRespectsEquality`).
- Zero times a finite decimal is infinity when the exponents add up to more than 1023 (`ZeroProduct`), and zero
  divided by one likewise (`SpecialQuotient`).
- `ceil` of a positive zero and `floor` of a negative zero with a negative exponent are 1 and -1
  (`ZerosCanBeRoundedAway`, `CeilingIsLeastInteger`, `FloorIsGreatestInteger`).
- `==` makes NaN equal to itself and `!=` is false whenever NaN is involved (`NaNComparisons`).
- `parseJSON` accepts texts that are not JSON: it does not compare the last letter of `null`, `true` and `false`, takes
  control characters in strings, the escapes `\v` and `\x`, and other white space (`OtherLastLetters`, `RawControls`,
  `OtherEscapes`, `OtherSpaces`). What it accepts is JSON exactly when one pass over the text meets none of these
  (`AcceptedIsJsonIffSpelled`, `AcceptedAndSpelled`).
- Of the texts of RFC 7159 `parseJSON` accepts exactly those without white space at the end that are nested at most a
  thousand deep, and merges members of the same name (`ParserReadsJson`). So it never accepts the output of
  `toPrettyJSONString`, which ends in a newline (`PrettyStringIsRejected`); without the newline it does
  (`PrettyRoundTrip`).
- An agent that uses its callback and also reports an error makes the dispatcher answer twice, and nothing else does
  (`AnsweredTwice`, `Dispatcher.StepKeeps`).
- A late response can go to a newer connection than the one it was made for, never to an older one
  (`ResponsesCanGoForward`, `ResponsesNeverGoBack`). Opening a connection makes that possible, before the next one is
  opened, exactly when a response is still waiting, a frontend is still connected or a connection is still to be
  reported to the inspector (`OpeningIsSafeIffSettled`); when none is opened in such a state, every response reaches
  its own session or nobody (`ResponsesReachTheirOwn`).
- Signed checked subtraction refuses one representable result, the smallest value (`SubExact`, `SubRefusesMinimum`).

## Model

| member | source | states |
|---|---|---|
| `DecimalPrimitives.CountDigits` | Source/platform/Decimal.cpp:189-198 | the least n with x < 10^n, for every 64-bit x, through the early exit at the top of the range |
| `DecimalPrimitives.ScaleDown` | Source/platform/Decimal.cpp:200-208 | floor division by 10^n for every n, although the loop stops at zero |
| `DecimalPrimitives.ScaleUp` | Source/platform/Decimal.cpp:210-227 | repeated squaring gives x · 10^n modulo 2^64 for n up to 18, which is what its callers pass |
| `DecimalPrimitives.TenTo` | Source/platform/Decimal.cpp:215-226 | the repeated squaring alone is the exact power, with no square overflowing on the way |
| `WideIntegers.MultiplyHigh` | Source/platform/Decimal.cpp:179-187 | together with the wrapped low product it is the exact 128-bit product, and no partial sum overflows |
| `WideIntegers.UInt128.Multiply` | Source/platform/Decimal.cpp:138 | the value is u · v for all u and v |
| `WideIntegers.UInt128.DivideBy` | Source/platform/Decimal.cpp:151-176 | the object becomes the floor of its value divided by any nonzero 32-bit divisor |
| `WideIntegers.LongDivide` | Source/platform/Decimal.cpp:160-172 | schoolbook division in base 2^32 over the four words is floor division, and every quotient word fits |
| `DecimalPrimitives.WrappedDifference` | Source/platform/Decimal.cpp:364-373 | the wrapped 64-bit difference, read as signed, is the true difference |
| `DecimalNumber.Construct` | Source/platform/Decimal.cpp:241-268 | the constructor's loop and range checks build Encode of its arguments, whose error EncodeError bounds |
| `DecimalNumber.ExcessIsLeast` | Source/platform/Decimal.cpp:245-250 | the constructor drops the least number of digits that brings the coefficient into range, at most two |
| `DecimalNumber.EncodeError` | Source/platform/Decimal.cpp:241-268 | for every exponent, encoding keeps the sign, overflows exactly when the raised exponent is past the largest and gives zero when it is below the smallest; otherwise it cuts less than one unit off and is exact when the coefficient fits |
| `DecimalAddition.Handle` | Source/platform/Decimal.cpp:84-109 | each of the five answers is given for exactly one kind of operands |
| `DecimalAddition.AlignOperands` | Source/platform/Decimal.cpp:572-617 | the branches of alignment compute AlignedDecimals, whose loss AlignedIsFaithful bounds |
| `DecimalAddition.LowerOperand` | Source/platform/Decimal.cpp:583-595 | one branch of alignment: shift the operand with the larger exponent down to the other, or as far as eighteen digits allow |
| `DecimalAddition.LowerIsFaithful` | Source/platform/Decimal.cpp:583-595 | the shifted operand is exact; the other loses less than one unit, and loses anything only when the shifted one has eighteen digits and it has fewer |
| `DecimalAddition.AlignedIsFaithful` | Source/platform/Decimal.cpp:572-617 | the same for whichever operand is shifted, for all finite operands |
| `DecimalAddition.Add` | Source/platform/Decimal.cpp:338-374 | the operator computes Sum, special operands and wrapped difference included; SumError and SpecialSum say what that is |
| `DecimalAddition.Subtract` | Source/platform/Decimal.cpp:376-412 | the operator computes Difference, which SubtractionIsNegatedAddition reduces to Sum |
| `DecimalAddition.SumEncodesTotal` | Source/platform/Decimal.cpp:338-374 | the branches on signs and on the signed reading of the difference amount to encoding the signed total of the aligned operands |
| `DecimalAddition.TotalError` | Source/platform/Decimal.cpp:338-374 | the aligned total differs from the exact sum by less than one unit, is exact when no digit was lost, and has the sign of the exact sum |
| `DecimalAddition.SumError` | Source/platform/Decimal.cpp:338-374 | a sum is infinite exactly when the aligned exponent is 1023 and the total does not fit; otherwise it is off by less than one unit of its own exponent, and exact when nothing was dropped |
| `DecimalAddition.SubtractionIsNegatedAddition` | Source/platform/Decimal.cpp:376-412 | a - b is a + (-b) as encodings, for all operands |
| `DecimalAddition.SumCommutes` | Source/platform/Decimal.cpp:338-374 | a + b is b + a as encodings, for all operands |
| `DecimalComparison.CompareIsExact` | Source/platform/Decimal.cpp:645-663 | the sign of compareTo is the sign of the difference of the exact values, although the subtraction behind it truncates |
| `DecimalComparison.CompareOutcome` | Source/platform/Decimal.cpp:645-663 | the same with infinities in their places at both ends |
| `DecimalComparison.OperatorsAreExact` | Source/platform/Decimal.cpp:514-563 | all six operators agree with the order of exact values and infinities |
| `DecimalComparison.StrictTotalOrder` | Source/platform/Decimal.cpp:514-563 | on everything but NaN, < is a strict total order, == is its equivalence, and the others follow |
| `DecimalComparison.NaNComparisons` | Source/platform/Decimal.cpp:514-563 | what each of the six operators says when NaN is on either side |
| `DecimalMonotonicity.SumPlace` | Source/platform/Decimal.cpp:338-374 | for finite operands the value of a sum, or the infinity it becomes, is a function of their values alone: each is cut to the places in which the other has its eighteen digits, and the total is cut to eighteen digits |
| `DecimalMonotonicity.CombinedMonotone` | Source/platform/Decimal.cpp:572-617 | that function never falls when an operand grows, although a longer operand makes more of the other be cut off |
| `DecimalMonotonicity.SumIsMonotone` | Source/platform/Decimal.cpp:338-374 | a <= b implies a + c <= b + c, infinities included, unless one of the sums is NaN |
| `DecimalMonotonicity.SumRespectsEquality` | Source/platform/Decimal.cpp:338-374 | a == b implies a + c == b + c, whatever the encodings, for all decimals |
| `DecimalProduct.CutProduct` | Source/platform/Decimal.cpp:424-431 | the loop divides the 128-bit product by the least power of ten that brings it below 2^64 |
| `DecimalProduct.CutIsLeast` | Source/platform/Decimal.cpp:427-431 | that power is the least |
| `DecimalProduct.Multiply` | Source/platform/Decimal.cpp:414-450 | the operator computes Product; ProductIsTruncated and SpecialProduct say what that is |
| `DecimalProduct.DroppedIsLeast` | Source/platform/Decimal.cpp:414-433 | the two stages of cutting together drop the least number of digits that makes the product fit eighteen |
| `DecimalProduct.ProductIsTruncated` | Source/platform/Decimal.cpp:414-433 | a normal product is the exact product cut to eighteen digits with its exponent; when it is zero and when it is infinite, exactly |
| `DecimalProduct.ProductCommutes` | Source/platform/Decimal.cpp:414-450 | a · b is b · a as encodings, for all operands |
| `DecimalProductEncodings.ProductRespectsEquality` | Source/platform/Decimal.cpp:414-433 | for nonzero operands and a == b, a · c == b · c exactly when the exponents of both products underflow or neither, and overflow or neither |
| `DecimalProductEncodings.EncodingDecidesUnderflow` | Source/platform/Decimal.cpp:252-265 | two encodings of one number whose products with a third are zero and not zero |
| `DecimalProduct.ZeroProduct` | Source/platform/Decimal.cpp:252-257 | zero times a finite decimal is zero exactly when the exponents add up to at most 1023, and infinity otherwise |
| `DecimalProduct.ZeroTimesFiniteCanBeInfinite` | Source/platform/Decimal.cpp:252-257 | an input on which it is infinity |
| `DecimalQuotient.DivideCoefficients` | Source/platform/Decimal.cpp:483-511 | the digit loop ends, nothing in it overflows, the guarding break is never taken, and the result is the rounded quotient at the least scale that is exact or long enough |
| `DecimalQuotient.Divide` | Source/platform/Decimal.cpp:452-512 | the operator computes Quotient; QuotientIsCorrectlyRounded and SpecialQuotient say what that is |
| `DecimalQuotient.RoundedFits` | Source/platform/Decimal.cpp:503-509 | rounding up never leaves the eighteen digits |
| `DecimalQuotient.QuotientIsCorrectlyRounded` | Source/platform/Decimal.cpp:452-512 | a normal quotient is within half a unit of the exact one, a tie goes down, and it is exact or has at least seventeen nines; when it is zero and when it is infinite, exactly |
| `DecimalQuotient.DivisionUndoesMultiplication` | Source/platform/Decimal.cpp:414-512 | (a · b) / b is a, encoding included, whenever the product needed no cutting |
| `DecimalSpecials.SpecialSum` | Source/platform/Decimal.cpp:338-361 | when a sum is NaN, exactly, and what infinity does otherwise |
| `DecimalSpecials.SpecialProduct` | Source/platform/Decimal.cpp:435-446 | the same for products |
| `DecimalSpecials.SpecialQuotient` | Source/platform/Decimal.cpp:452-481 | the same for quotients, zeros on either side included |
| `DecimalRounding.IsMultiplePowersOfTen` | Source/platform/Decimal.cpp:619-622 | scaling down and up again decides divisibility by 10^n, 10^18 included |
| `DecimalRounding.Ceil` | Source/platform/Decimal.cpp:625-643 | digit counting and scaling compute Ceiling; CeilingIsLeastInteger says what that is |
| `DecimalRounding.FloorOf` | Source/platform/Decimal.cpp:666-684 | digit counting and scaling compute Floor; FloorIsGreatestInteger says what that is |
| `DecimalRounding.RoundOff` | Source/platform/Decimal.cpp:905-924 | scaling and the first fraction digit compute Round; RoundIsNearestInteger says what that is |
| `DecimalRounding.CeilingIsLeastInteger` | Source/platform/Decimal.cpp:625-643 | the result is an integer, and the least one not below the value exactly unless it is a positive zero with a negative exponent |
| `DecimalRounding.FloorIsGreatestInteger` | Source/platform/Decimal.cpp:666-684 | the result is an integer, and the greatest one not above the value exactly unless it is a negative zero with a negative exponent |
| `DecimalRounding.RoundIsNearestInteger` | Source/platform/Decimal.cpp:905-924 | the result is the nearest integer, halves away from zero, for every finite decimal |
| `DecimalRounding.ZerosCanBeRoundedAway` | Source/platform/Decimal.cpp:636-637 | an input for each exception: the ceiling of 0.0 is 1, the floor of -0.0 is -1 |
| `DecimalParser.FromString` | Source/platform/Decimal.cpp:697-887 | the loop over the text and the final scaling compute Parse, with the accumulator and the exponent never overflowing before the scaling; ParserLanguage and ParseMeaning say what that is |
| `Numerals.StepSimulates` | Source/platform/Decimal.cpp:731-865 | each state and each counter of the automaton is a function of the numeral read so far, and a step reads one more character of it |
| `ParserCorrectness.RunIsReading` | Source/platform/Decimal.cpp:697-887 | the rest of a run is determined by the numeral read so far |
| `ParserCorrectness.ParserLanguage` | Source/platform/Decimal.cpp:697-887 | a text is not NaN exactly when it is a complete numeral, or starts with one whose exponent is huge |
| `ParserCorrectness.HugeExponentStops` | Source/platform/Decimal.cpp:787-798 | after an exponent above 1041 reading stops with the same answer, whatever follows |
| `ParserCorrectness.KeptIsTruncation` | Source/platform/Decimal.cpp:734-761 | the digits kept are the number written, cut toward zero after eighteen counted digits, and all of it when there are no more |
| `ParserCorrectness.ParseMeaning` | Source/platform/Decimal.cpp:787-887 | over all complete numerals, the kept number is read with its sign exactly when: with an exponent past 1041, it is zero; below -1023, it is zero and positive; from -1023 to 1022, always; above, the guard passes and the scaling does not overflow. In the failing cases, what is answered instead |
| `ParserCorrectness.CountersFit` | Source/platform/Decimal.cpp:734-761 | the digit counters never exceed the number of characters read, nor the resulting exponent that number by more than 1041 |
| `ParserCorrectness.ScaledDown` | Source/platform/Decimal.cpp:875-881 | the overflow branch on its own: the value is right exactly when the scaled accumulator is below 10^19 |
| `ParserExamples.NotTheDocumentedGrammar` | Source/platform/Decimal.cpp:731-865 | for every digit d, "d." and "+.d" are NaN and ".ed" is a zero |
| `ParserExamples.RepresentableBecomesInfinity` | Source/platform/Decimal.cpp:875-879 | "1e1040" becomes infinity |
| `ParserExamples.HugeExponentBecomesInfinity` | Source/platform/Decimal.cpp:791-795 | "0.000000000000000001e1042" is 10^1024, which a decimal represents, and becomes infinity |
| `ParserExamples.SmallExponentLosesItsSign` | Source/platform/Decimal.cpp:872-874 | "-10e-1024" is -10^-1023, which a decimal represents, and becomes positive zero |
| `ParserExamples.TooLargeBecomesFinite` | Source/platform/Decimal.cpp:875-881 | "2.00e1041" becomes finite |
| `ParserExamples.SpecialsAreNotRead` | Source/platform/Decimal.h:142-153 | what is printed for infinities and NaN is not read back, as the header says |
| `DecimalPrinter.Shorten` | Source/platform/Decimal.cpp:965-981 | the two loops round to fifteen digits and strip trailing zeros of the fraction |
| `DecimalPrinter.WriteScientific` | Source/platform/Decimal.cpp:1008-1020 | the scientific layout, with trailing zeros of the mantissa left out |
| `DecimalPrinter.WriteLayout` | Source/platform/Decimal.cpp:986-1021 | the choice among the four layouts and their text |
| `DecimalPrinter.ToString` | Source/platform/Decimal.cpp:940-1023 | the method computes Print, infinities and NaN included; RoundTrip and SpecialsAreNotRead say what becomes of it |
| `DecimalPrinter.DigitsOfQuotient` | Source/platform/Decimal.cpp:968-973 | dropping k digits leaves exactly k fewer |
| `DecimalRoundTrip.LayoutIsNumeral` | Source/platform/Decimal.cpp:986-1021 | every layout is the text of a numeral that the parser's notation describes |
| `DecimalRoundTrip.RoundTrip` | Source/platform/Decimal.cpp:697-1023 | printing and parsing a finite decimal gives back its sign and value exactly when Survives holds of its coefficient and exponent |
| `DecimalRoundTrip.ThirteenDigitsSurvive` | Source/platform/Decimal.cpp:697-1023 | it does for every coefficient below 10^13 and exponent up to 1005 |
| `DecimalRoundTrip.TopBecomesInfinite` | Source/platform/Decimal.cpp:875-879 | 10^17 times 10^1023 is printed and read back as infinity |
| `DecimalRoundTrip.SixteenthDigitIsRounded` | Source/platform/Decimal.cpp:965-976 | 123456789012345.6 is printed and read back as 123456789012346 |
| `DecimalRoundTrip.LastPlaceIsCut` | Source/platform/Decimal.cpp:754-761 | 12345678901234 times 10^-19 is printed and read back without its last digit |
| `DecimalPrintError.RoundedIsNearest` | Source/platform/Decimal.cpp:965-973 | the coefficient that is printed is the nearest one of fifteen digits, halves up |
| `DecimalPrintError.PrintError` | Source/platform/Decimal.cpp:697-1023 | what comes back for every finite decimal: without places after the point the value, or infinity when it does not survive; with them the sign and the value within half a unit of the fifteenth digit, short of it by less than a further 10^-18 when places were cut |
| `JsonWriter.DoubleQuoteString` | Source/platform/JSONValues.cpp:46-81 | appends the quoted and escaped string |
| `JsonWriter.WriteIndent` | Source/platform/JSONValues.cpp:83-87 | appends the indentation of a depth |
| `JsonWriter.WriteJSON` | Source/platform/JSONValues.cpp:233-260 | appends the compact text of any value, which TreeRoundTrip reads back |
| `JsonWriter.WriteArray` | Source/platform/JSONValues.cpp:438-447 | the loop over an array appends its compact text |
| `JsonWriter.WriteObject` | Source/platform/JSONValues.cpp:381-394 | the loop over an object appends its compact text |
| `JsonWriter.PrettyWriteJSON` | Source/platform/JSONValues.cpp:180-183 | appends the pretty text of any value at any depth, which ValueStrips reduces to the compact text |
| `JsonWriter.PrettyWriteArray` | Source/platform/JSONValues.cpp:449-477 | the loop over an array with its line breaks |
| `JsonWriter.PrettyWriteObject` | Source/platform/JSONValues.cpp:396-412 | the loop over an object with its line breaks |
| `JsonObject.JSONObject.SetValue` | Source/platform/JSONValues.cpp:293-298 | order and dictionary stay in step; a new key goes last, a known one keeps its place |
| `JsonObject.JSONObject.Get` | Source/platform/JSONValues.cpp:362-368 | finds what the ordered members hold |
| `JsonObject.JSONObject.Remove` | Source/platform/JSONValues.cpp:370-379 | order and dictionary stay in step; the other members keep their order |
| `JsonObject.JSONObject.WriteJSON` | Source/platform/JSONValues.cpp:381-394 | writes the members in order |
| `JsonObject.WriteEntries` | Source/platform/JSONValues.cpp:381-394 | the loop over the order vector; its assertion that every key is found holds on every turn |
| `JsonObject.RemoveFirst` | Source/platform/JSONValues.cpp:373-378 | the loop over the order vector takes out the first occurrence |
| `JsonObject.SetThenLookup` | Source/platform/JSONValues.cpp:293-298 | what was set last is found, and other keys are not disturbed |
| `JsonObject.RemoveUndoesSet` | Source/platform/JSONValues.cpp:370-379 | removing a key that was new restores the members |
| `JsonObject.SetKeepsOrder` | Source/platform/JSONValues.cpp:293-298 | setting a known key changes no position |
| `JsonObject.ObjectsAreDistinct` | Source/platform/JSONValues.cpp:293-298 | an object held this way has distinct keys, which the round trip asks for |
| `JsonTokens.QuotedRead` | Source/platform/JSONValues.cpp:46-81 | a quoted string is read as the string by section 7 of RFC 7159, for every string of UTF-16 units |
| `JsonTokens.PrintIsJsonNumber` | Source/platform/Decimal.cpp:986-1021 | the text of every finite decimal matches the number grammar of section 6 of RFC 7159 |
| `JsonTokens.NumberRead` | Source/core/inspector/JSONParser.cpp:91-139 | every number of that grammar is scanned exactly to its end |
| `JsonTokens.ScannedIsJsonNumber` | Source/core/inspector/JSONParser.cpp:91-139 | whatever is scanned as a number is one of that grammar |
| `JsonWritten.ValueRead` | Source/platform/JSONValues.cpp:233-260 | at any depth, in either layout, after white space and before any delimited text, the strict reader reads a written value as the value and stops after it |
| `JsonWritten.CompactIsJson` | Source/platform/JSONValues.cpp:152-158 | toJSONString of every tree is a JSON text of RFC 7159 and stands for the tree |
| `JsonWritten.PrettyIsJson` | Source/platform/JSONValues.cpp:160-178 | the same for toPrettyJSONString, its last newline included |
| `JsonRoundTrip.ValueParsed` | Source/core/inspector/JSONParser.cpp:340-454 | at any depth, whatever the strict reader reads as a value is built as that value, members of one name merged, and ends at the same place; or building fails, exactly when it is too deep |
| `JsonRoundTrip.ParserReadsJson` | Source/core/inspector/JSONParser.cpp:456-476 | of every JSON text of RFC 7159, parseJSON returns the tree exactly when no white space ends the text and it is at most a thousand deep, and nothing otherwise |
| `JsonRoundTrip.CompactRoundTrip` | Source/core/inspector/JSONParser.cpp:456-476 | parseJSON of toJSONString is the tree, key order included, exactly when it is at most a thousand deep, and nothing otherwise |
| `JsonRoundTrip.PrettyRoundTrip` | Source/core/inspector/JSONParser.cpp:456-476 | the same for pretty text without its last newline, from any starting depth |
| `JsonRoundTrip.PrettyStringIsRejected` | Source/platform/JSONValues.cpp:160-178 | the output of toPrettyJSONString is never accepted |
| `JsonNumbers.RereadLexemes` | Source/platform/JSONValues.cpp:233-248 | reading the printed numbers of a tree gives the tree back exactly when every number is finite and survives |
| `JsonNumbers.TextRoundTrip` | Source/platform/JSONValues.cpp:152-178 | for every tree, a strict reader that takes numbers for decimals reads the same tree from both outputs, and the tree that was written exactly when every number is finite and survives |
| `JsonNumbers.TreeRoundTrip` | Source/platform/JSONValues.cpp:152-158 | writing a tree of decimals, parsing it with parseJSON and reading its numbers gives the same tree, key order included, exactly when it is at most a thousand deep and every number survives |
| `JsonPretty.ValueStrips` | Source/platform/JSONValues.cpp:449-477 | taking the white space outside strings (section 2 of RFC 7159) out of pretty text at any depth gives the compact text |
| `JsonPretty.PrettyIsCompact` | Source/platform/JSONValues.cpp:152-178 | the same for toPrettyJSONString and toJSONString, which has none to take out |
| `JsonLayout.PrettyIsLaidOut` | Source/platform/JSONValues.cpp:396-477 | a reader that sees only the characters of toPrettyJSONString finds every line indented by two spaces per open bracket, keys and closing braces first on their line, single spaces after commas and colons and nowhere else, and all brackets closed |
| `JsonCharacters.WrittenIsSafe` | Source/platform/JSONValues.cpp:62-81 | whatever strings a tree holds, its text is printable ASCII without angle brackets, plus line ends in pretty text |
| `JsonParsed.ScannedDecodes` | Source/core/inspector/JSONParser.cpp:270-321 | decodeString decodes everything that parseStringToken accepts |
| `JsonParsed.StringTokensDecode` | Source/core/inspector/JSONParser.cpp:370-377 | so building never fails on a string token |
| `JsonParsed.LastLetterIsFree` | Source/core/inspector/JSONParser.cpp:62-70 | the last letter of each constant is accepted whatever it is |
| `JsonSpelling.AcceptedIsJsonIffSpelled` | Source/core/inspector/JSONParser.cpp:456-476 | a text that parseJSON accepts is a JSON text of RFC 7159 exactly when a pass from left to right finds whole literal names, no white space but the four characters, no control character in a string and no escape \v or \x |
| `JsonSpelling.AcceptedAndSpelled` | Source/core/inspector/JSONParser.cpp:456-476 | the texts that are accepted and pass are exactly the JSON texts that have no white space at the end and are at most a thousand deep |
| `JsonSpelling.SpelledValue` | Source/core/inspector/JSONParser.cpp:340-454 | at any depth, a value that is built from a text that passes is one that the grammar reads |
| `JsonSpelling.OtherLastLetters` | Source/core/inspector/JSONParser.cpp:62-70 | every wrong last letter of a literal name is accepted, and makes a text that is not JSON |
| `JsonSpelling.RawControls` | Source/core/inspector/JSONParser.cpp:155-191 | so does every control character in a string |
| `JsonSpelling.OtherEscapes` | Source/core/inspector/JSONParser.cpp:163-183 | so do \v and every \x with two hexadecimal digits |
| `JsonSpelling.OtherSpaces` | Source/core/inspector/JSONParser.cpp:196-197 | so does every other white space character before a value |
| `JsonParsed.ParsedTreesAreSound` | Source/core/inspector/JSONParser.cpp:340-454 | every tree that parseJSON returns has distinct keys and is at most a thousand deep |
| `JsonScanner.ParseConstToken` | Source/core/inspector/JSONParser.cpp:62-70 | the loop that advances past a mismatch accepts what ParseConst says |
| `JsonScanner.ReadInteger` | Source/core/inspector/JSONParser.cpp:72-89 | reads a run of digits, with the rule on leading zeros |
| `JsonScanner.ParseNumberToken` | Source/core/inspector/JSONParser.cpp:91-139 | scans sign, integer, fraction and exponent |
| `JsonScanner.ReadHex` | Source/core/inspector/JSONParser.cpp:141-153 | reads a number of hexadecimal digits or fails |
| `JsonScanner.ParseStringToken` | Source/core/inspector/JSONParser.cpp:155-191 | scans to the closing quote through all escapes |
| `JsonScanner.NextToken` | Source/core/inspector/JSONParser.cpp:193-255 | skips white space and finds the token, its start and its end |
| `JsonScanner.DecodeString` | Source/core/inspector/JSONParser.cpp:270-321 | undoes the escapes; the branch for unknown escapes and the assertion on hexadecimal digits are never reached |
| `JsonScanner.BuildArrayAt` | Source/core/inspector/JSONParser.cpp:378-405 | the loop over elements builds what BuildItems says |
| `JsonScanner.BuildObjectAt` | Source/core/inspector/JSONParser.cpp:406-446 | the loop over members builds what BuildMembers says |
| `JsonScanner.BuildValueAt` | Source/core/inspector/JSONParser.cpp:340-454 | one value at a position, with the depth limit |
| `JsonScanner.ParseText` | Source/core/inspector/JSONParser.cpp:456-476 | the parser as it runs computes ParseJSON, of which CompactRoundTrip and ParsedTreesAreSound speak |
| `Handoff.DrainedIsConnected` | Source/v8inspector/RemoteDebuggingServer.cc:46-72 | in every interleaving, running the waiting tasks would leave a frontend exactly when a connection is open |
| `Handoff.ConnectFindsNoFrontend` | Source/v8inspector/V8Inspector.cpp:73-82 | in every interleaving, the assertion of connectFrontend holds |
| `Handoff.DispatchFollowsTheConnection` | Source/v8inspector/RemoteDebuggingServer.cc:58-92 | what the main thread dispatched is a prefix of what arrived while a connection was open, each message in its own session, and all of it once the queue is empty |
| `Handoff.ResponsesNeverGoBack` | Source/v8inspector/RemoteDebuggingServer.cc:109-130 | no response goes to a connection older than the session that made it |
| `Handoff.ResponsesCanGoForward` | Source/v8inspector/RemoteDebuggingServer.cc:122-130 | a run in which a response goes to a newer one |
| `Handoff.ResponsesReachTheirOwn` | Source/v8inspector/RemoteDebuggingServer.cc:109-130 | in every interleaving in which connections are opened in settled states only, with no response waiting, no frontend left and every connection reported, a response reaches its own session or nobody |
| `Handoff.OpeningIsSafeIffSettled` | Source/v8inspector/RemoteDebuggingServer.cc:46-56 | opening a connection can lead to a misdelivery before the next opening exactly when the state is not settled |
| `Handoff.OpeningAfterAnyRun` | Source/v8inspector/RemoteDebuggingServer.cc:46-130 | the same after every interleaving |
| `Handoff.StepKeeps` | Source/v8inspector/RemoteDebuggingServer.cc:46-130 | every step of either thread keeps the invariant behind these |
| `Handoff.V8Inspector.ConnectFrontend` | Source/v8inspector/V8Inspector.cpp:73-82 | sets frontend and dispatcher, given that there was none |
| `Handoff.V8Inspector.DisconnectFrontend` | Source/v8inspector/V8Inspector.cpp:84-96 | clears both, or does nothing |
| `Handoff.V8Inspector.DispatchMessageFromFrontend` | Source/v8inspector/V8Inspector.cpp:107-111 | dispatches exactly when there is a dispatcher |
| `Handoff.RemoteDebuggingServer.HandleWebSocketRequest` | Source/v8inspector/RemoteDebuggingServer.cc:46-56 | is the request step and keeps the invariant |
| `Handoff.RemoteDebuggingServer.HandleWebSocketMessage` | Source/v8inspector/RemoteDebuggingServer.cc:58-63 | is the message step and keeps the invariant |
| `Handoff.RemoteDebuggingServer.HandleClose` | Source/v8inspector/RemoteDebuggingServer.cc:65-72 | is the close step and keeps the invariant |
| `Handoff.RemoteDebuggingServer.RunMain` | Source/v8inspector/RemoteDebuggingServer.cc:75-92 | runs the next task on the main thread; the precondition of connectFrontend follows from the invariant |
| `Handoff.RemoteDebuggingServer.Send` | Source/v8inspector/RemoteDebuggingServer.cc:109-118 | posts a response to the IO thread |
| `Handoff.RemoteDebuggingServer.RunIo` | Source/v8inspector/RemoteDebuggingServer.cc:122-130 | sends it over the connection of the moment, or drops it |
| `Dispatcher.OneResponsePerCall` | Source/core/InspectorBackendDispatcher.cpp:6170-6233 | over every run with fresh ids and disciplined agents: at most one response per id, none for an id not dispatched or still owed, exactly one for every other while the channel is set |
| `Dispatcher.StepKeeps` | Source/core/InspectorBackendDispatcher.cpp:1308-1330 | a step keeps this exactly when the agent did not both use its callback and report an error, or the channel is gone; otherwise the call is answered twice |
| `Dispatcher.AnsweredTwice` | Source/core/InspectorBackendDispatcher.cpp:1323-1330 | three steps that answer one call twice |
| `Dispatcher.RejectedAtOnce` | Source/core/InspectorBackendDispatcher.cpp:6188-6196 | a call reaches its agent exactly when the command is known, the agent is registered and the parameters are well-formed; otherwise it is answered at once with the code for its fault |
| `Dispatcher.NothingAfterClear` | Source/core/InspectorBackendDispatcher.cpp:773 | once the frontend is cleared no run sends anything, whatever agents do |
| `Dispatcher.AgentsRunOnGoodCalls` | Source/core/InspectorBackendDispatcher.cpp:1362-1380 | over every run, agents are invoked on such calls only |
| `Dispatcher.NoErrorsMeansWellFormed` | Source/core/InspectorBackendDispatcher.cpp:6235-6268 | the list of parameters yields no protocol error exactly when every required one is there and every one that is there has its type |
| `DispatcherObjects.GetPropertyValue` | Source/core/InspectorBackendDispatcher.cpp:6235-6268 | appends the errors of one parameter; with none, the value is that of the request |
| `DispatcherObjects.CheckCall` | Source/core/InspectorBackendDispatcher.cpp:1362-1375 | the checks of a handler, in order, collect all errors |
| `DispatcherObjects.BackendDispatcher.ClearTheFrontend` | Source/core/InspectorBackendDispatcher.cpp:773 | takes the channel away and sends nothing |
| `DispatcherObjects.BackendDispatcher.Admit` | Source/core/InspectorBackendDispatcher.cpp:6170-6196 | passes a call on exactly when it is allowed and answers it otherwise |
| `DispatcherObjects.BackendDispatcher.SendResponse` | Source/core/InspectorBackendDispatcher.cpp:6198-6210 | sends a result or a server error while there is a channel |
| `DispatcherObjects.BackendDispatcher.ReportProtocolError` | Source/core/InspectorBackendDispatcher.cpp:6217-6233 | sends an error with its code while there is a channel |
| `DispatcherObjects.BackendDispatcher.FinishAsync` | Source/core/InspectorBackendDispatcher.cpp:1323-1330 | an error disables the callback and is sent |
| `DispatcherObjects.CallbackBase.Send` | Source/core/InspectorBackendDispatcher.cpp:6346-6352 | is the step of using a callback: only the first use is heard |
| `ArrayBuffers.ArrayBuffer.AddView` | Source/wtf/ArrayBuffer.cpp:69-77 | the links are those of the list with the view in front |
| `ArrayBuffers.ArrayBuffer.RemoveView` | Source/wtf/ArrayBuffer.cpp:79-89 | the links are those of the list without the view; a view taken out before changes nothing |
| `ArrayBuffers.Unlink` | Source/wtf/ArrayBuffer.cpp:82-88 | rewiring the neighbours removes one position of the linked sequence |
| `ArrayBuffers.BridgedIsLinked` | Source/wtf/ArrayBuffer.cpp:82-88 | links that skip a position are the links of the sequence without it |
| `ArrayBuffers.ArrayBuffer.ScanNeuterable` | Source/wtf/ArrayBuffer.cpp:43-47 | the scan by links visits every view |
| `ArrayBuffers.ArrayBuffer.DetachAll` | Source/wtf/ArrayBuffer.cpp:57-62 | the loop ends with an empty list; neuterable views are detached, others keep the buffer |
| `ArrayBuffers.ArrayBuffer.Transfer` | Source/wtf/ArrayBuffer.cpp:34-67 | succeeds exactly when there are bytes and they need no copy or can be copied; the result is the original bytes, the buffer keeps them exactly when some view is not neuterable, every view is detached accordingly, and failure changes nothing |
| `ArrayBuffers.ArrayBuffer.TransferAmong` | Source/wtf/ArrayBuffer.cpp:34-67 | among any number of buffers and views, a transfer does this, changes no other buffer and no view of another, and keeps every list sound and every view in the list of its buffer or in none |
| `ArrayBuffers.ArrayBuffer.constructor` | Source/wtf/ArrayBuffer.h:155-159 | a new buffer has an empty list and keeps this among all buffers and views |
| `ArrayBuffers.ArrayBufferView.constructor` | Source/wtf/ArrayBufferView.cpp:33-44 | a new view goes to the front of the list of its buffer, if it has one, and keeps this |
| `ArrayBuffers.DestroyView` | Source/wtf/ArrayBufferView.cpp:46-50 | the destructor takes the view out of its buffer's list, also after a transfer, and keeps this for the views that are left |
| `BloomFilters.NoFalseNegatives` | Source/wtf/BloomFilter.h:51-53 | after any run in which only present keys are removed, every present key is reported, so the assertions in remove hold |
| `BloomFilters.AddKeeps` | Source/wtf/BloomFilter.h:82-91 | adding keeps every counter stuck or equal to the number of contributions, coinciding slots included |
| `BloomFilters.RemoveKeeps` | Source/wtf/BloomFilter.h:93-105 | removing a present key keeps it, finds both counters above zero and never wraps |
| `BloomFilters.EmptyLooksEmpty` | Source/wtf/BloomFilter.h:113-122 | no keys implies likelyEmpty, and with no counter stuck likelyEmpty implies no keys |
| `BloomFilters.BloomFilter.AddHash` | Source/wtf/BloomFilter.h:82-91 | updates the table through two slots that may be one |
| `BloomFilters.BloomFilter.RemoveHash` | Source/wtf/BloomFilter.h:93-105 | the same for removal |
| `BloomFilters.BloomFilter.ClearTable` | Source/wtf/BloomFilter.h:107-111 | zeroes the table |
| `BloomFilters.BloomFilter.MayContainHash` | Source/wtf/BloomFilter.h:53 | true for every present key |
| `BloomFilters.BloomFilter.IsLikelyEmpty` | Source/wtf/BloomFilter.h:113-122 | true exactly when every counter is zero or stuck |
| `BitVectors.BitVector.Get` | Source/wtf/BitVector.h:139-144 | membership, for any bit |
| `BitVectors.BitVector.QuickSet` | Source/wtf/BitVector.h:119-123 | adds one bit and nothing else; the tag is not disturbed |
| `BitVectors.BitVector.QuickClear` | Source/wtf/BitVector.h:125-129 | removes one bit and nothing else; the tag is not disturbed |
| `BitVectors.BitVector.SetBit` | Source/wtf/BitVector.h:146-150 | adds any bit, growing first; the storage is the old one or new |
| `BitVectors.BitVector.Clear` | Source/wtf/BitVector.h:158-163 | removes any bit |
| `BitVectors.BitVector.ClearAll` | Source/wtf/BitVector.cpp:68-74 | leaves no bit, in either form |
| `BitVectors.BitVector.EnsureSize` | Source/wtf/BitVector.h:101-106 | grows and changes no bit |
| `BitVectors.BitVector.Resize` | Source/wtf/BitVector.cpp:53-66 | keeps exactly the bits below the new size, which is the inline one or whole words; the storage is inline or new |
| `BitVectors.BitVector.ResizeOutOfLine` | Source/wtf/BitVector.cpp:93-112 | the new words are the old ones, cut or padded with zeros |
| `BitVectors.BitVector.Assign` | Source/wtf/BitVector.cpp:38-51 | a copy that shares nothing, self-assignment included |
| `BitVectorRuns.Perform` | Source/wtf/BitVector.h:84-163 | each call on a vector that stands for a set of naturals does to it what the same call does to the set, and its words are its own or new |
| `BitVectorRuns.Step` | Source/wtf/BitVector.h:84-163 | among several vectors that share no words, a call changes one of them and they still share none, assignment from any of them included |
| `BitVectorRuns.Run` | Source/wtf/BitVector.h:84-163 | over any run of get, set, clear, clearAll, ensureSize, resize and assignment, from any vector to any or to itself, the answers and the contents are those of sets of naturals |
| `BitVectors.SetHolds` | Source/wtf/BitVector.h:119-123 | setting a bit in either form adds it, keeps the others and keeps the tag |
| `BitVectors.UnsetHolds` | Source/wtf/BitVector.h:125-129 | clearing a bit in either form removes it, keeps the others and keeps the tag |
| `BitVectors.MovedHolds` | Source/wtf/BitVector.cpp:93-112 | moving out of line, growing and shrinking lose no bit below the new size and invent none |
| `BitVectors.InlinedHolds` | Source/wtf/BitVector.cpp:55-63 | moving inline keeps exactly the bits below 63 |
| `CheckedArithmetic.AddExact` | Source/wtf/CheckedArithmetic.h:241-310 | addition succeeds exactly when the sum is representable, and is it |
| `CheckedArithmetic.SubExact` | Source/wtf/CheckedArithmetic.h:257-319 | subtraction succeeds exactly when the difference is representable, except for a signed difference equal to the minimum from a negative left side |
| `CheckedArithmetic.SubRefusesMinimum` | Source/wtf/CheckedArithmetic.h:257-270 | an input in that exception |
| `CheckedArithmetic.MultiplyExact` | Source/wtf/CheckedArithmetic.h:272-331 | multiplication succeeds exactly when the product is representable, for all four sign patterns |
| `CheckedArithmetic.UnflaggedIsExact` | Source/wtf/CheckedArithmetic.h:643-677 | an expression tree is flagged exactly when some step of it is unrepresentable or in the exception, and unflagged it has its exact value |
| `CheckedArithmetic.CheckedVariable.AddAssign` | Source/wtf/CheckedArithmetic.h:550-555 | the flag is sticky, and an unflagged variable has its exact value |
| `CheckedArithmetic.CheckedVariable.SubAssign` | Source/wtf/CheckedArithmetic.h:557-562 | the same for subtraction |
| `CheckedArithmetic.CheckedVariable.MultiplyAssign` | Source/wtf/CheckedArithmetic.h:564-569 | the same for multiplication |
| `Lifecycle.RegisteredIffPointed` | Source/platform/LifecycleObserver.h:74-84 | over any run across many contexts and observers, an observer is in the set of a context exactly when its reference is that context, and references never dangle |
| `Lifecycle.SetContextKeeps` | Source/platform/LifecycleObserver.h:74-84 | setContext keeps set and reference in agreement, also when the context stays the same |
| `Lifecycle.DestroyContextKeeps` | Source/platform/LifecycleNotifier.h:91-104 | destroying a context leaves no reference to it |
| `Lifecycle.DestroyObserverKeeps` | Source/platform/LifecycleObserver.h:41-56 | destroying an observer takes it out of its context |
| `Lifecycle.NotifyLoopCalls` | Source/platform/LifecycleNotifier.h:113-126 | callbacks may dispose of or move any observers: every call is made in a state in which the observer is registered with the context and refers to it, none is made twice or after an earlier callback moved the observer, one is passed over only if an earlier callback moved it, and those left are those that no callback moved |
| `Lifecycle.NotifyCalls` | Source/platform/LifecycleNotifier.h:106-128 | the same for a whole notification, and a second one calls nobody |
| `Lifecycle.CalledWhileRegistered` | Source/platform/LifecycleNotifier.h:116-125 | the states recorded with the calls are those that the loop goes through, callback by callback, and in each of them the guard and the assertion before the call hold |
| `LifecycleObjects.Observer.SetContext` | Source/platform/LifecycleObserver.h:74-84 | updates the reference and both sets and keeps them in agreement |
| `LifecycleObjects.Observer.Dispose` | Source/platform/LifecycleObserver.h:53-56 | leaves the observer without a context |
| `LifecycleObjects.Notifier.AddObserver` | Source/platform/LifecycleNotifier.h:130-135 | grows the set, given that the context does not iterate |
| `LifecycleObjects.Notifier.RemoveObserver` | Source/platform/LifecycleNotifier.h:137-141 | shrinks the set |
| `LifecycleObjects.Notifier.Destroy` | Source/platform/LifecycleNotifier.h:91-104 | clears exactly the references to this context |
| `LifecycleObjects.Notifier.ContextDestroyed` | Source/platform/LifecycleNotifier.h:122-125 | a callback, made only on an observer that is registered and refers to this context, takes exactly the observers that it moves out of the set |
| `LifecycleObjects.Notifier.CallEach` | Source/platform/LifecycleNotifier.h:116-126 | the loop over the snapshot calls no observer twice or after an earlier callback moved it, and passes over one only if an earlier callback moved it |
| `LifecycleObjects.Notifier.NotifyContextDestroyed` | Source/platform/LifecycleNotifier.h:106-128 | the same for a whole notification; the observers left are exactly those that no callback moved, and a second one calls nobody |

## Left out

- `Decimal::fromDouble`, `toDouble` and `remainder`: they rest on conversions between doubles and text that are not part of the repository, or on a rounded quotient that gives no clean law. A number leaf of a JSON tree is therefore a decimal when written and a lexeme when parsed.
- DecimalPrimitives.ScaleUp: accepts n = 18, which the code asserts against but which `floor` and `fromString` pass.
- DecimalParser.FromString: the count of surplus integer digits is unbounded, where the code keeps it in an int; by CountersFit the two differ on texts of more than two thousand million characters only.
- JsonScanner.NextToken: the white space beyond ASCII is that of class WS since version 6.3 of Unicode; in earlier versions U+180E is white space too, and which one applies is up to the ICU library.
- JsonScanner.BuildValueAt: a number token always yields a number; the conversion charactersToDouble, which the code can see fail, is not part of this model.
- JsonNumbers.TreeRoundTrip: lexemes are read by `Decimal::fromString`, where the code converts them with charactersToDouble.
- JsonScanner.ParseStringToken: a backslash as the last character makes the code read one character past the end; the model fails there, as the code does whatever it finds.
- JSON accessors such as `getBoolean` and `pushValue`, and conversions of number leaves to machine integers: they would only add easy members.
- The generated command handlers beyond one synchronous and one asynchronous shape, the command tables, the type builders and the frontend: repetitive plumbing.
- Dispatcher.OneResponsePerCall: the message is taken as already parsed into an id, a method and members, as the code asserts it can be.
- Handoff.ResponsesNeverGoBack: when connections are opened in states that are not settled, which newer connection a response reaches is not stated, because the code does not promise it.
- Sockets, the HTTP server, message loops and the V8 shell: input and output; only their queues are kept.
- ArrayBuffers.ArrayBufferView.constructor: the base address computed from the offset is not modelled.
- ArrayBuffers.ArrayBuffer.Transfer: whether memory for a copy can be had is a parameter; reference counting is not modelled.
- BloomFilters.BloomFilter.constructor: the table size is any number up to 65536, of which the code uses powers of two; taking the low bits is written as a remainder.
- BitVectors.BitVector.ResizeOutOfLine: freeing the old words is not modelled, and the address of new ones is arbitrary.
- CheckedArithmetic.AddExact: operands of one type only; mixed widths and signedness, division and comparison are not modelled.
- Lifecycle.NotifyCalls: a notification is one step, so one that re-enters itself is not modelled.
