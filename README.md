# circumspect, modelled in Dafny

circumspect lets a hardware simulation write a Perfetto trace. The simulation
calls a small C interface (the DPI functions of the `cspect` crate) to open
tracks, processes, threads and counters. It then reports slices, instant events
and counter values on them. The `cspect` context turns each call into one or
more trace packets, using the `synthetto` packet builder. Meanwhile it keeps a
stack of open slices per track and the last value of every compressed counter.

Strings in those packets may hold placeholders of the form `$kind:value`. The
`cspect-cli annotate` command rewrites a finished trace record by record. It
cuts each visited string into text and placeholders, and asks the resolver
registered for a placeholder's kind for a replacement. Two resolvers exist:
`a2l`, which turns a code address into source locations from the executable's
debug information, and `da-rv32`/`da-rv64`, which disassemble a RISC-V
instruction word. Both parse their numbers with the radix-detecting helpers of
`utils.rs`. A packet whose strings did not change is copied byte for byte; a
changed one is encoded afresh.

The model has one module per part of the program:

- `Synthetto` covers the identifier allocator (a class) and the packets each builder writes.
- `Cspect` covers the encoder context. It is a class whose methods update the open-slice stacks, the counter memory and the output stream in place. Its invariant ties the begin and end records written to each track to the slices still open there.
- `Dpi` covers the argument conventions of the C interface and its return codes.
- `Lexer` covers the placeholder scanner, as a loop proved against a recursive definition.
- `Annotate` covers the resolver registry, `annotate_string` and `annotate_packet`. `AnnotateExamples` holds the unit-test cases.
- `Addr2Line` and `Disasm` cover the two resolvers.
- `Utils` and `Format` cover radix detection, `from_str_radix`, and the two `format!` renderings of numbers. `UtilsRoundTrip` covers their round trips.
- `Framer` covers the record framing (tag, varint length, payload) and the rewriting loop of `annotate`.

Where the tool's documentation and its code differ, the model follows the code:

- The placeholder scanner does not give back its input. A `$` that does not start a well-formed placeholder is kept, but the characters the failed scan consumed are dropped. `Lexer.LexRejected` and `Lexer.RejectedExample` state this.
- A placeholder whose kind has no resolver is written back as `$kind:value`. It does not count as a change.
- The identifier-returning C functions return 1, not 0, when the context handle is null (see Findings).

## Model

| member | source | states |
|---|---|---|
| Wrappers.MapOption | cspect/src/dpi.rs:429 | Mapping keeps presence and applies the function to a present value. |
| Format.Digits | cspect-cli/src/annotate/addr2line.rs:43-44 | The rendering of a number is non-empty and made only of digits of the radix. `Utils.FoldDigitsRoundTrip` reads it back. |
| Format.Decimal | cspect-cli/src/annotate/addr2line.rs:43-44 | `{}` on an unsigned number is a non-empty decimal digit string. |
| Format.Signed | cspect/src/dpi.rs:654-673 | `{}` on a signed number is a `-` exactly for negative numbers, followed by the decimal digits of the magnitude. |
| Format.Hex08 | cspect-cli/src/annotate/addr2line.rs:148 | `{:08x}` gives at least eight lower-case hexadecimal digits, with no padding once the number needs more than eight. |
| Utils.TrimStart | cspect-cli/src/utils.rs:2 | The result is a suffix of the input, starts with no white space, and only white space was dropped. |
| Utils.TrimEnd | cspect-cli/src/utils.rs:2 | The result is a prefix of the input, ends with no white space, and only white space was dropped. |
| Utils.Trim | cspect-cli/src/utils.rs:2 | `trim` gives a slice of the input with only white space cut off either end, leaves none at either end, and is empty exactly when the input is all white space. |
| Utils.TrimSlice | cspect-cli/src/utils.rs:2 | Cutting white space off the front and then the back leaves a slice of the input with only white space around it, empty exactly when the input is all white space. |
| Utils.TrimNoop | cspect-cli/src/utils.rs:2 | A string with no white space at either end is left as it is. |
| Utils.DetectRadix | cspect-cli/src/utils.rs:1-11 | After trimming, `0x`/`0X` selects 16, otherwise `0b`/`0B` selects 2, otherwise 10. A prefix is removed exactly when one was found. |
| Utils.ToDigit | cspect-cli/src/utils.rs:15 | `to_digit` gives `0`-`9` their values and letters of either case 10 and up, each only below the radix, and rejects every other character. |
| Utils.FoldDigits | cspect-cli/src/utils.rs:15 | The digit loop gives a value below the type's limit, or an invalid-digit or overflow error, never "empty". |
| Utils.FromStrRadix | cspect-cli/src/utils.rs:15 | `from_str_radix` fails with "empty" exactly on the empty string, and every value it gives fits the type. |
| Utils.StringToU64 | cspect-cli/src/utils.rs:18-21 | `string_to_u64` gives only values below 2^64. |
| Utils.StringToU128 | cspect-cli/src/utils.rs:13-16 | `string_to_u128` gives only values below 2^128. |
| Utils.FoldWidens | cspect-cli/src/utils.rs:15 | A digit string that parses under a smaller limit parses to the same value under a larger one. |
| Utils.FoldNarrows | cspect-cli/src/utils.rs:15 | A digit string that parses under a larger limit to a value that fits a smaller limit parses under the smaller one too. |
| Utils.U64AgreesWithU128 | cspect-cli/src/utils.rs:13-21 | `string_to_u64` and `string_to_u128` agree on every input whose value fits 64 bits. |
| Utils.ToDigitOfDigitChar | cspect-cli/src/utils.rs:15 | `to_digit` reads each digit character that `format!` writes as its value. |
| Utils.FoldLeadingZeros | cspect-cli/src/utils.rs:15 | Leading zeros do not change the parsed value. |
| Utils.FoldZeros | cspect-cli/src/utils.rs:15 | A string of zeros parses as 0. |
| Utils.FoldDigitsRoundTrip | cspect-cli/src/utils.rs:15 | Parsing the digits rendered for `n` gives `n` when it fits the limit, and an overflow error otherwise. |
| Utils.FoldDigitsStep | cspect-cli/src/utils.rs:15 | Appending digit `r` to digits worth `q` gives `q * radix + r`, or an overflow. |
| Utils.FoldSnoc | cspect-cli/src/utils.rs:15 | One character more runs exactly one more step of the digit loop. |
| Utils.FoldInvalidDigit | cspect-cli/src/utils.rs:15 | The digit loop reports an invalid digit exactly when some character is not a digit of the radix and the characters before it were read without overflow. |
| Utils.FromStrRadixInvalidDigit | cspect-cli/src/utils.rs:15 | `from_str_radix` reports an invalid digit exactly when the digit loop over the text after an optional `+` finds one. |
| Utils.DigitIsPlain | cspect-cli/src/utils.rs:1-11 | A rendered digit is never a sign or white space, and a decimal digit is never a radix letter. |
| Utils.DetectPlainDigits | cspect-cli/src/utils.rs:1-11 | A rendered digit string starts with no sign and has no white space at either end. |
| Utils.DetectDecimal | cspect-cli/src/utils.rs:1-11 | A decimal digit string is read whole, in radix 10. |
| Utils.DetectPrefixed | cspect-cli/src/utils.rs:4-7 | A trimmed input with a radix prefix selects that radix, on the rest of the input. |
| Utils.DetectLiteral | cspect-cli/src/utils.rs:4-7 | A literal made of a radix prefix and a word not ending in white space selects that radix on the word. |
| Utils.DetectUnprefixed | cspect-cli/src/utils.rs:8-9 | A trimmed input that does not start with `0` is read whole, in radix 10. |
| Utils.ParseDetected | cspect-cli/src/utils.rs:13-21 | Once the radix is detected and the digits have no sign, both parsers are the plain digit fold. |
| Utils.DetectHex | cspect-cli/src/utils.rs:4-5 | `0x` and hexadecimal digits select radix 16 on exactly those digits. |
| Utils.HexRoundTrip | cspect-cli/src/utils.rs:13-16 | `0x` plus the `{:08x}` rendering of a 128-bit value parses back to it with `string_to_u128`. |
| Utils.HexRoundTripU64 | cspect-cli/src/utils.rs:18-21 | `0x` plus the `{:08x}` rendering of a 64-bit value parses back to it with `string_to_u64`. |
| Utils.FromStrRadixUnsigned | cspect-cli/src/utils.rs:15 | Without a leading sign, `from_str_radix` is the plain digit fold. |
| Utils.HexParses | cspect-cli/src/utils.rs:15 | The `{:08x}` digits of `n` parse to `n` below the limit, and overflow above it. |
| Utils.HexOverflowsU64 | cspect-cli/src/utils.rs:13-21 | A hexadecimal literal that fits 128 bits but not 64 parses as u128 and overflows as u64. |
| Utils.FoldTwo | cspect-cli/src/utils.rs:15 | Two digits parse to `hi * radix + lo`. |
| UtilsRoundTrip.DecimalRoundTrip | cspect-cli/src/utils.rs:18-21 | The decimal rendering of any 64-bit value parses back to it. |
| UtilsRoundTrip.SignedRoundTrip | cspect/src/dpi.rs:654-673 | The rendering of a signed number reads back as its sign and its magnitude. |
| UtilsRoundTrip.TrimPadded | cspect-cli/src/utils.rs:2 | One blank on each side of a word is removed by `trim`. |
| UtilsRoundTrip.HexExampleUpper | cspect-cli/src/utils.rs:18-21 | `0x1F` parses to 31. |
| UtilsRoundTrip.TrimInsensitive | cspect-cli/src/utils.rs:1-2 | Surrounding white space never changes what either parser gives. |
| UtilsRoundTrip.BlanksIgnored | cspect-cli/src/utils.rs:2 | One blank on each side of a literal does not change its value. |
| UtilsRoundTrip.HexExampleSign | cspect-cli/src/utils.rs:18-21 | `0x+1F` parses to 31, because `from_str_radix` accepts a `+` after the prefix. |
| UtilsRoundTrip.HexExampleErrors | cspect-cli/src/utils.rs:18-21 | `0xZZ` is an invalid digit and `0x` alone is empty. |
| UtilsRoundTrip.BinaryExample | cspect-cli/src/utils.rs:6-7 | `0b101` parses to 5. |
| Lexer.ScanFrom | cspect-cli/src/annotate/mod.rs:277-293 | The scan only consumes input, and stops at the end or in front of a blank, a line break or a `$`. |
| Lexer.Accept | cspect-cli/src/annotate/mod.rs:295-299 | A placeholder is produced exactly when the scan collected a kind, passed a `:` and collected a value. |
| Lexer.ParsePlaceholder | cspect-cli/src/annotate/mod.rs:272-300 | The scanning loop returns what the recursive scan accepts, and stops where that scan stops. |
| Lexer.LexStepDollar | cspect-cli/src/annotate/mod.rs:245-258 | On a `$` the pending text is emitted, then a placeholder, or a `$` that starts new text. |
| Lexer.LexStepText | cspect-cli/src/annotate/mod.rs:259-261 | Any other character is added to the pending text. |
| Lexer.ParseStep | cspect-cli/src/annotate/mod.rs:244-262 | One turn of the loop moves forward and keeps the elements still to come unchanged. |
| Lexer.ParseString | cspect-cli/src/annotate/mod.rs:239-270 | `parse_string` returns exactly the elements of the recursive definition. |
| Lexer.LexText | cspect-cli/src/annotate/mod.rs:259-261 | Text without `$` is added to the pending run whole. |
| Lexer.LexNoPlaceholder | cspect-cli/src/annotate/mod.rs:264-267 | A string with no `$` is one text element, or nothing when empty. |
| Lexer.ScanWord | cspect-cli/src/annotate/mod.rs:284-291 | A word without stop characters is scanned whole into the kind, or into the value after the `:`. |
| Lexer.ScanColon | cspect-cli/src/annotate/mod.rs:279-282 | The first `:` switches the scan from kind to value. |
| Lexer.ScanKind | cspect-cli/src/annotate/mod.rs:277-293 | A kind followed by `:` leaves the scan reading the value. |
| Lexer.ScanValue | cspect-cli/src/annotate/mod.rs:277-293 | A value is scanned up to the stop character after it. |
| Lexer.ScanPlaceholder | cspect-cli/src/annotate/mod.rs:277-293 | The kind ends at the first `:`, and any later `:` belongs to the value. |
| Lexer.LexPlaceholder | cspect-cli/src/annotate/mod.rs:245-254 | A well-formed placeholder becomes one element, after the pending text. |
| Lexer.LexRejected | cspect-cli/src/annotate/mod.rs:255-258 | A candidate with no `:` leaves only its `$` as text, and the scanned word is lost. |
| Lexer.OnlyPlaceholderExample | cspect-cli/src/annotate/mod.rs:306-321 | `$kind:value` is one placeholder with kind `kind` and value `value`. |
| Lexer.LexTextThenPlaceholder | cspect-cli/src/annotate/mod.rs:244-262 | Text and then a well-formed placeholder give a text element and then a placeholder element. |
| Lexer.LexTwoPlaceholders | cspect-cli/src/annotate/mod.rs:239-270 | Text, placeholder, text, placeholder give four elements in input order. |
| Lexer.MixedContentExample | cspect-cli/src/annotate/mod.rs:323-350 | `Hello $name:Silvano and welcome to $place:ETH!` gives four elements; the last value keeps the `!`. |
| Lexer.MixedContentPieces | cspect-cli/src/annotate/mod.rs:325 | The test sentence is its text runs and placeholders laid end to end. |
| Lexer.MixedContentWords | cspect-cli/src/annotate/mod.rs:283 | The test sentence's kinds and values hold no stop character. |
| Lexer.RejectedExample | cspect-cli/src/annotate/mod.rs:253-258 | `$ab cd` becomes the single text `$ cd`. |
| Annotate.ResolveNow | cspect-cli/src/annotate/mod.rs:215 | Calling the registered resolver gives its `annotate` answer. |
| Annotate.BuildRegistry | cspect-cli/src/annotate/mod.rs:42-50 | The registry loop enters every resolver under each of its keys, in list order. |
| Annotate.RegisterFacts | cspect-cli/src/annotate/mod.rs:47-49 | Entering a resolver under some keys adds exactly those keys, overwrites them, and keeps the others. |
| Annotate.RegistryOfFacts | cspect-cli/src/annotate/mod.rs:42-50 | A key is registered exactly when some resolver accepts it, and it leads to the last such resolver. |
| Annotate.RegisteredKeys | cspect-cli/src/annotate/mod.rs:42-50 | A key is registered exactly when some resolver in the list accepts it. |
| Annotate.RegisteredLast | cspect-cli/src/annotate/mod.rs:42-50 | A registered key leads to the last resolver in the list that accepts it. |
| Annotate.RegistryOfWellKeyed | cspect-cli/src/annotate/mod.rs:42-50 | Every key of a built registry leads to a resolver that accepts it. |
| Annotate.SubstituteErrPersists | cspect-cli/src/annotate/mod.rs:215 | A resolver error part-way through is the error of the whole string. |
| Annotate.SubstStepOk | cspect-cli/src/annotate/mod.rs:210-230 | Substituting one more element appends its output and adds its change flag. |
| Annotate.SubstStepErr | cspect-cli/src/annotate/mod.rs:215 | An element whose resolver fails makes the substitution fail with that error. |
| Annotate.AnnotateString | cspect-cli/src/annotate/mod.rs:201-237 | `annotate_string` returns the definition's change flag and new string, and on an error leaves the string as it was. |
| Annotate.SubstituteAllFacts | cspect-cli/src/annotate/mod.rs:210-230 | The substitution gives one output per element. It fails exactly when some resolver fails, and reports a change exactly when some resolver answered. |
| Annotate.SubstituteFails | cspect-cli/src/annotate/mod.rs:215 | The substitution fails exactly when some element's resolver fails. |
| Annotate.SubstituteOutputs | cspect-cli/src/annotate/mod.rs:210-230 | A successful substitution gives one output per element, each as that element's rule gives it. |
| Annotate.SubstituteDirty | cspect-cli/src/annotate/mod.rs:216 | A successful substitution reports a change exactly when some resolver answered. |
| Annotate.AnsweredFlag | cspect-cli/src/annotate/mod.rs:214-227 | An element's change flag is set exactly when its resolver answered with a replacement. |
| Annotate.AnsweredSplit | cspect-cli/src/annotate/mod.rs:216 | Some element is answered exactly when one before the last is, or the last is. |
| Annotate.SomeSplit | cspect-cli/src/annotate/mod.rs:216 | An element satisfies a predicate exactly when one before the last does, or the last does. |
| Annotate.ModifiedIffAnswered | cspect-cli/src/annotate/mod.rs:232-236 | A change is reported exactly when some placeholder was answered; otherwise the string is unchanged. |
| Annotate.UnknownKindsKeepString | cspect-cli/src/annotate/mod.rs:221-227 | If no placeholder kind has a resolver, the string is kept and no change is reported. |
| Annotate.PlainStringKept | cspect-cli/src/annotate/mod.rs:201-237 | A string without `$` is never changed. |
| Annotate.AnnotateOptionalNow | cspect-cli/src/annotate/mod.rs:168-170 | An optional field is annotated when present and left absent otherwise. |
| Annotate.AnnotateListNow | cspect-cli/src/annotate/mod.rs:182-184 | The command-line loop annotates each part in order and stops at the first error. |
| Annotate.ListStepOk | cspect-cli/src/annotate/mod.rs:182-184 | One more part annotated appends its result and adds its change flag. |
| Annotate.ListStepErr | cspect-cli/src/annotate/mod.rs:182-184 | A part whose annotation fails makes the list fail with that error. |
| Annotate.ListErrPersists | cspect-cli/src/annotate/mod.rs:182-184 | An error part-way through is the error of the whole list. |
| Annotate.AnnotateTrackNameNow | cspect-cli/src/annotate/mod.rs:172-176 | Only a dynamic track name is annotated; a static or atrace name is left alone. |
| Annotate.AnnotateProcessNow | cspect-cli/src/annotate/mod.rs:178-185 | A process descriptor's name and then its command line are annotated. |
| Annotate.AnnotateThreadNow | cspect-cli/src/annotate/mod.rs:187-191 | A thread descriptor's name is annotated. |
| Annotate.AnnotateDescriptorNow | cspect-cli/src/annotate/mod.rs:167-192 | Description, dynamic name, process fields and thread name are visited in source order. |
| Annotate.AnnotatePacket | cspect-cli/src/annotate/mod.rs:155-199 | `annotate_packet` returns the rewritten packet exactly when some visited field changed, and an error when a resolver fails. |
| Annotate.Blanks | cspect-cli/src/annotate/mod.rs:182 | `n` empty strings. |
| Annotate.AnnotateListKeepsLength | cspect-cli/src/annotate/mod.rs:182-184 | Annotating a command line keeps its number of parts. |
| Annotate.OnlyVisitedFieldsChange | cspect-cli/src/annotate/mod.rs:155-199 | A rewritten packet differs from the original only in the visited strings. |
| Annotate.DescriptorSkeletonKept | cspect-cli/src/annotate/mod.rs:167-192 | Annotating a descriptor changes nothing but the visited strings. |
| Annotate.OtherPacketsKept | cspect-cli/src/annotate/mod.rs:161-198 | A packet that is neither a track event nor a track descriptor is never rewritten. |
| Annotate.EmptyRegistryKeepsStrings | cspect-cli/src/annotate/mod.rs:221-227 | With no resolvers, every string is kept and no change is reported. |
| Annotate.EmptyRegistryKeepsLists | cspect-cli/src/annotate/mod.rs:182-184 | With no resolvers, every command line is kept. |
| Annotate.EmptyRegistryKeepsPackets | cspect-cli/src/annotate/mod.rs:194-198 | With no resolvers, no packet is rewritten. |
| AnnotateExamples.Upper | cspect-cli/src/annotate/mod.rs:361 | Upper-casing keeps the length and changes exactly the letters `a` to `z`. |
| AnnotateExamples.CapRegistry | cspect-cli/src/annotate/mod.rs:374 | The test registry holds one resolver, under `cap`, that accepts it. |
| AnnotateExamples.SubstituteAppend | cspect-cli/src/annotate/mod.rs:210-230 | Substituting two runs of elements one after the other joins their outputs and their flags. |
| AnnotateExamples.ConcatAppend | cspect-cli/src/annotate/mod.rs:233 | `join("")` of two lists laid end to end is the two joins laid end to end. |
| AnnotateExamples.SubstTextHole | cspect-cli/src/annotate/mod.rs:210-230 | A text element followed by a placeholder gives the text and then the placeholder's replacement. |
| AnnotateExamples.LexCapBetween | cspect-cli/src/annotate/mod.rs:239-270 | Text, a `cap` placeholder and text give three elements. |
| AnnotateExamples.SubstCapBetween | cspect-cli/src/annotate/mod.rs:210-230 | Among those three elements, only the placeholder is answered, with its value in upper case. |
| AnnotateExamples.ConcatThree | cspect-cli/src/annotate/mod.rs:233 | `join("")` of three strings is their concatenation. |
| AnnotateExamples.CapitalizeBetween | cspect-cli/src/annotate/mod.rs:201-237 | A `cap` placeholder between two texts is replaced by its value in upper case, and a change is reported. |
| AnnotateExamples.CapitalizeExample | cspect-cli/src/annotate/mod.rs:368-381 | `Hello, $cap:world !` becomes `Hello, WORLD !`, and a change is reported. |
| AnnotateExamples.CapitalizeExampleShape | cspect-cli/src/annotate/mod.rs:376 | The test string is text, a `cap` placeholder and text. |
| AnnotateExamples.CapitalizeExampleText | cspect-cli/src/annotate/mod.rs:380 | The expected result is the texts around the upper-cased word. |
| AnnotateExamples.LexMixed | cspect-cli/src/annotate/mod.rs:239-270 | Text, `cap`, text, `other`, text, `cap` give six elements in order. |
| AnnotateExamples.CapAnswered | cspect-cli/src/annotate/mod.rs:359-364 | A `cap` placeholder is answered with its value in upper case. |
| AnnotateExamples.OtherWrittenBack | cspect-cli/src/annotate/mod.rs:221-227 | A kind with no resolver is written back as `$kind:value`, and no change is reported. |
| AnnotateExamples.SubstThreePairs | cspect-cli/src/annotate/mod.rs:210-230 | Three text and placeholder pairs give their outputs in order, and the change flag of any of them. |
| AnnotateExamples.SubstMixed | cspect-cli/src/annotate/mod.rs:210-230 | Both `cap` placeholders are answered, and the `other` one is written back. |
| AnnotateExamples.ConcatSix | cspect-cli/src/annotate/mod.rs:233 | `join("")` of six strings is their concatenation. |
| AnnotateExamples.CapitalizeMixed | cspect-cli/src/annotate/mod.rs:201-237 | Every `cap` value is upper-cased, the unknown placeholder stays as written, and a change is reported. |
| AnnotateExamples.MixedPlaceholdersExample | cspect-cli/src/annotate/mod.rs:394-407 | `Process $cap:main with $other:value and $cap:thread` becomes `Process MAIN with $other:value and THREAD`. |
| AnnotateExamples.MixedExamplePieces | cspect-cli/src/annotate/mod.rs:402 | The test string's placeholders are their kinds and values joined by `:`. |
| AnnotateExamples.MixedExampleWords | cspect-cli/src/annotate/mod.rs:402 | The test string's texts hold no `$`, and its words hold no stop character. |
| AnnotateExamples.UpperWords | cspect-cli/src/annotate/mod.rs:406 | `main` and `thread` upper-case to `MAIN` and `THREAD`. |
| AnnotateExamples.NoMatchingAnnotatorExample | cspect-cli/src/annotate/mod.rs:383-392 | `Hello $unknown:world` with no resolvers is kept, and no change is reported. |
| Addr2Line.New | cspect-cli/src/annotate/addr2line.rs:18-25 | A loaded file gives a resolver that demangles and follows inlined frames; a failed load gives the load error. |
| Addr2Line.Components | cspect-cli/src/annotate/addr2line.rs:34-35 | Path components are never empty and never `.`. |
| Addr2Line.FileName | cspect-cli/src/annotate/addr2line.rs:35 | `file_name` is never empty, `.` or `..`. |
| Addr2Line.SplitWord | cspect-cli/src/annotate/addr2line.rs:35 | A word without `/` is one piece. |
| Addr2Line.SplitAtSlash | cspect-cli/src/annotate/addr2line.rs:35 | A `/` closes the current piece, and the rest is split afresh. |
| Addr2Line.ComponentsSnoc | cspect-cli/src/annotate/addr2line.rs:35 | One piece more adds one component, unless it is empty or `.`. |
| Addr2Line.FileNameAfterDirectory | cspect-cli/src/annotate/addr2line.rs:33-38 | A file after a directory is shortened to its own name. |
| Addr2Line.FileNameOfBareName | cspect-cli/src/annotate/addr2line.rs:33-38 | A bare file name is kept as it is. |
| Addr2Line.SourceLocStr | cspect-cli/src/annotate/addr2line.rs:27-46 | A location without a file is `?`; otherwise the short file name, then `:line` and `:column` as far as they are known. |
| Addr2Line.FuncStr | cspect-cli/src/annotate/addr2line.rs:48-58 | A missing name is `?`; a present one is demangled exactly when demangling is on. |
| Addr2Line.Peekable.constructor | cspect-cli/src/annotate/addr2line.rs:67 | The peekable iterator starts at the lookup's first answer with no frame kept. |
| Addr2Line.Peekable.Next | cspect-cli/src/annotate/addr2line.rs:71 | `next` gives the kept frame if there is one, else the lookup iterator's next answer; nothing stays kept. |
| Addr2Line.Peekable.Peek | cspect-cli/src/annotate/addr2line.rs:83 | `peek` pulls one answer and keeps it only when it is a frame; an end or an error is passed on and dropped. |
| Addr2Line.FramesStr | cspect-cli/src/annotate/addr2line.rs:60-130 | `frames_str` is `a2l err` when the lookup fails or a `next` call fails, `?` when no text results, and the chain of frames otherwise; it is never empty. |
| Addr2Line.WalkFrames | cspect-cli/src/annotate/addr2line.rs:67-120 | The loop over the peekable iterator fails exactly when the walk meets an error at a `next` call; otherwise its text is the chain of the frames the walk renders. |
| Addr2Line.ChainOfSnoc | cspect-cli/src/annotate/addr2line.rs:102-115 | One rendered frame more appends its text after `->` when the chain is not empty. |
| Addr2Line.WalkAtEnd | cspect-cli/src/annotate/addr2line.rs:75-77 | Once the iterator's answers are used up, the walk ends with the frames it has. |
| Addr2Line.AllShown | cspect-cli/src/annotate/addr2line.rs:83-87 | The frames of a clean lookup as the loop renders them: each in order, only the last with the symbol table's answer. |
| Addr2Line.FramesNeverEmpty | cspect-cli/src/annotate/addr2line.rs:122-126 | The chain for an address is never empty. |
| Addr2Line.NoErrorNoFailure | cspect-cli/src/annotate/addr2line.rs:70-77 | A walk whose iterator never answers with an error never fails. |
| Addr2Line.CleanWalkFrom | cspect-cli/src/annotate/addr2line.rs:70-120 | With inlined frames, the rest of a walk without errors renders all remaining frames, the symbol table consulted on the last. |
| Addr2Line.CleanLookupRendersAll | cspect-cli/src/annotate/addr2line.rs:70-120 | With inlined frames, a lookup without errors renders every frame in order, with the symbol table consulted on the last frame only. |
| Addr2Line.FirstPullFails | cspect-cli/src/annotate/addr2line.rs:71-74 | An error answered to the first `next` gives `a2l err`. |
| Addr2Line.PeekedErrorDropped | cspect-cli/src/annotate/addr2line.rs:83 | An error that only `peek` meets is dropped: the frame before it is rendered alone, without the symbol table, and the walk ends cleanly. |
| Addr2Line.TransientErrorSurvived | cspect-cli/src/annotate/addr2line.rs:71-83 | After an error that `peek` drops, the next `next` pulls again and the walk also renders the frame that follows, with the symbol table. |
| Addr2Line.RepeatedErrorFails | cspect-cli/src/annotate/addr2line.rs:71-83 | Two errors in a row: `peek` drops the first and `next` fails on the second, giving `a2l err`. |
| Addr2Line.OnlyFirstFrameWithoutInlines | cspect-cli/src/annotate/addr2line.rs:83-119 | Without inlined frames only the first frame is rendered, with the symbol table consulted when the peek after it sees the end, and a later failure goes unnoticed. |
| Addr2Line.SymbolOnlyOnLastFrame | cspect-cli/src/annotate/addr2line.rs:83-87 | On a lookup without errors, every frame but the last is rendered without the symbol table. |
| Addr2Line.SymbolPreferred | cspect-cli/src/annotate/addr2line.rs:89-98 | When the symbol table knows the address, its name replaces the debug name. |
| Addr2Line.SingleFrameText | cspect-cli/src/annotate/addr2line.rs:100-115 | One full frame reads `file:line:column:function`, with the file shortened to its name and the symbol table's name, with or without inlined frames. |
| Addr2Line.TwoFramesJoined | cspect-cli/src/annotate/addr2line.rs:102-104 | Two frames are joined by `->`, the inlined one first, and only the second uses the symbol table. |
| Addr2Line.Annotate | cspect-cli/src/annotate/addr2line.rs:138-149 | An address that does not parse is skipped; otherwise the chain, then the address as `(0x...)`. |
| Addr2Line.AnnotatedAddressReadsBack | cspect-cli/src/annotate/addr2line.rs:148 | The hexadecimal written after the chain parses back to the address looked up. |
| Disasm.New | cspect-cli/src/annotate/disasm.rs:25-31 | Both decoders are kept and asked for 32-bit instructions. |
| Disasm.Select | cspect-cli/src/annotate/disasm.rs:125-129 | `da-rv32` selects the RV32 decoder and `da-rv64` the RV64 one. |
| Disasm.Annotate | cspect-cli/src/annotate/disasm.rs:124-140 | A word that does not parse is skipped; otherwise the decoded instruction, or `?`, then the word as `(0x...)`. |
| Disasm.AnnotatedWordReadsBack | cspect-cli/src/annotate/disasm.rs:137-138 | The hexadecimal written after the instruction parses back to the decoded word. |
| Disasm.KeysAreIndependent | cspect-cli/src/annotate/disasm.rs:125-129 | An `rv32` answer depends only on the RV32 decoder, and an `rv64` answer only on the RV64 one. |
| Disasm.HexWordExample | cspect-cli/src/annotate/disasm.rs:131-137 | `0x` plus eight hexadecimal digits comes back decoded, with the same digits. |
| Framer.Pow128 | cspect-cli/src/annotate/mod.rs:112 | Powers of 128 are positive. |
| Framer.EncodeVarint | cspect-cli/src/annotate/mod.rs:134 | A varint takes at least one byte. |
| Framer.EncodingShape | cspect-cli/src/annotate/mod.rs:105 | Every byte of a varint but the last has the continuation bit set, and the last has it clear. |
| Framer.DecodeShift | cspect-cli/src/annotate/mod.rs:112 | Decoding the copied length field is decoding it in place. |
| Framer.EncodeShort | cspect-cli/src/annotate/mod.rs:134 | A number below 128^k takes at most k bytes. |
| Framer.EncodeAtMostTen | cspect-cli/src/annotate/mod.rs:134 | A 64-bit length takes at most ten bytes. |
| Framer.DecodeEncodeFrom | cspect-cli/src/annotate/mod.rs:112 | Decoding reads back what was encoded. |
| Framer.SplitHead | cspect-cli/src/annotate/mod.rs:100-111 | A run that starts with `x` has `x` first and the rest after it. |
| Framer.SevenBits | cspect-cli/src/annotate/mod.rs:112 | Splitting off seven bits leaves one varint digit fewer. |
| Framer.VarintRoundTrip | cspect-cli/src/annotate/mod.rs:112 | `decode_length_delimiter` reads back any 64-bit length encoded, whatever follows it. |
| Framer.LenCount | cspect-cli/src/annotate/mod.rs:97-111 | A length field read ends on a byte without the continuation bit, within the 19-byte buffer and the input; otherwise end-of-input or unterminated. |
| Framer.SliceOfSlice | cspect-cli/src/annotate/mod.rs:137 | A slice of a slice is a slice of the whole. |
| Framer.LenCountStops | cspect-cli/src/annotate/mod.rs:105-107 | The length field is read up to its first byte without the continuation bit. |
| Framer.UnterminatedRejected | cspect-cli/src/annotate/mod.rs:108-110 | Nineteen continuation bytes are rejected as an unterminated varint. |
| Framer.ReadLenField | cspect-cli/src/annotate/mod.rs:97-111 | The inner loop copies the length field into the fixed buffer, or reports the error the definition gives. |
| Framer.Header | cspect-cli/src/annotate/mod.rs:82-122 | A record's head gives a non-empty length field and a non-zero payload length, both inside the input. |
| Framer.RecordOut | cspect-cli/src/annotate/mod.rs:124-139 | What is written for a record always starts with the tag. |
| Framer.NextRecord | cspect-cli/src/annotate/mod.rs:82-139 | A record that is read takes at least one byte inside the input, and its output starts with the tag. |
| Framer.RecordReader | cspect-cli/src/annotate/mod.rs:77-140 | The pass's reader always moves forward inside the input. |
| Framer.ReadHeader | cspect-cli/src/annotate/mod.rs:82-116 | Reading the tag and the length field gives what the definition gives, and leaves the length field in the buffer. |
| Framer.WriteRecord | cspect-cli/src/annotate/mod.rs:124-139 | Decoding, annotating and writing back gives the definition's bytes: a copy, or the changed packet framed afresh. |
| Framer.ReadRecord | cspect-cli/src/annotate/mod.rs:82-139 | One turn of the outer loop gives the definition's size and bytes for the record. |
| Framer.AnnotateTrace | cspect-cli/src/annotate/mod.rs:77-140 | The framing loop writes what the definition writes, and stops with its error. |
| Framer.AnnotateFile | cspect-cli/src/annotate/mod.rs:37-153 | `annotate` is the framing loop with the packet visitor of the registry built from the resolvers. |
| Framer.EmptyTrace | cspect-cli/src/annotate/mod.rs:85-87 | An empty trace is rewritten to an empty trace. |
| Framer.BadFirstTag | cspect-cli/src/annotate/mod.rs:88-93 | A first byte other than 0x0A stops the pass with that byte reported, before anything is written. |
| Framer.ZeroLengthRejected | cspect-cli/src/annotate/mod.rs:114-116 | A zero length is an error wherever it occurs. |
| Framer.FramedLength | cspect-cli/src/annotate/mod.rs:97-112 | The length field of a framed record is read back as the payload's length. |
| Framer.RecordParts | cspect-cli/src/annotate/mod.rs:82-122 | A record laid out as tag, length field and payload can be cut back into those parts. |
| Framer.FramedHeader | cspect-cli/src/annotate/mod.rs:82-122 | The head of a framed record is the length field written there, and the payload's length. |
| Framer.RecordOutOfFrame | cspect-cli/src/annotate/mod.rs:124-139 | The bytes written for a framed record depend only on its payload. |
| Framer.FramedRecordRead | cspect-cli/src/annotate/mod.rs:82-139 | Reading a framed record gives the outcome for its payload. |
| Framer.UnchangedRecordCopied | cspect-cli/src/annotate/mod.rs:136-139 | A record whose packet is not changed is copied byte for byte. |
| Framer.ChangedRecordReframed | cspect-cli/src/annotate/mod.rs:132-135 | A record whose packet is changed is replaced by the tag and the new packet, length-delimited. |
| Framer.RunAppends | cspect-cli/src/annotate/mod.rs:131-139 | The pass only appends: earlier output stays a prefix. |
| Framer.SplitSuffix | cspect-cli/src/annotate/mod.rs:77-140 | A suffix made of two parts has the first part at `pos` and the second right after it. |
| Framer.RunEchoes | cspect-cli/src/annotate/mod.rs:77-140 | When every record of the rest is echoed, the pass copies it to the end without error. |
| Framer.Frames | cspect-cli/src/annotate/mod.rs:131-139 | Each payload is framed as the writer frames it. |
| Framer.FramedEchoes | cspect-cli/src/annotate/mod.rs:77-140 | A reader that copies framed records echoes every record of a well-framed stretch. |
| Framer.RecordReaderCopies | cspect-cli/src/annotate/mod.rs:82-139 | The pass's own reader copies every framed record it leaves unchanged. |
| Framer.UnannotatedTraceEchoed | cspect-cli/src/annotate/mod.rs:77-140 | When no packet is changed, the pass writes back exactly the trace it read. |
| Framer.NoResolversEchoTrace | cspect-cli/src/annotate/mod.rs:37-153 | With no resolvers, every well-framed trace of decodable packets is copied unchanged. |
| Synthetto.ChildOrderToProto | synthetto/src/lib.rs:25-35 | The orderings map to 1, 2 and 3, one each. |
| Synthetto.ChildOrderInjective | synthetto/src/lib.rs:25-35 | Different orderings never share a value. |
| Synthetto.UnitFromString | synthetto/src/lib.rs:399-408 | A missing or empty name is unspecified. A custom unit results exactly for a name other than the three known ones, and keeps that name. |
| Synthetto.ToProtoUnit | synthetto/src/lib.rs:410-418 | A unit is always present, and is unspecified exactly for the unspecified and custom units. |
| Synthetto.ToProtoUnitName | synthetto/src/lib.rs:420-426 | A unit name is given exactly for a custom unit, and is its name. |
| Synthetto.UnitNameRoundTrip | synthetto/src/lib.rs:399-426 | The unit name a caller gives can be recovered from the descriptor; an empty name reads as none. |
| Synthetto.ProcessPacket | synthetto/src/lib.rs:64-107 | `new_process` writes a descriptor packet for a process track with the given fields and no parent. |
| Synthetto.ThreadPacket | synthetto/src/lib.rs:109-149 | `new_thread` writes a descriptor packet for a thread track with the given fields and no parent. |
| Synthetto.TrackPacket | synthetto/src/lib.rs:151-188 | `new_track` writes a descriptor packet with a dynamic name under the given parent. |
| Synthetto.CounterPacket | synthetto/src/lib.rs:190-236 | `new_counter` writes a counter descriptor with the unit and unit name of the unit given. |
| Synthetto.SliceBeginPacket | synthetto/src/lib.rs:239-269 | A slice-begin event on the given track at the given time, with its name, flows and correlation id. |
| Synthetto.SliceEndPacket | synthetto/src/lib.rs:271-300 | A slice-end event on the given track at the given time, never with a name. |
| Synthetto.InstantPacket | synthetto/src/lib.rs:302-333 | An instant event on the given track at the given time, with its name, flows and correlation id. |
| Synthetto.IntCounterPacket | synthetto/src/lib.rs:335-360 | An integer counter event on the given track at the given time, with no name, flows or correlation id. |
| Synthetto.FloatCounterPacket | synthetto/src/lib.rs:362-388 | A floating-point counter event on the given track at the given time, with no name, flows or correlation id. |
| Synthetto.Emit | synthetto/src/lib.rs:104-105 | Writing a packet appends one record with the 0x0A tag and keeps what was there. |
| Synthetto.EventsAndDescriptorsDisjoint | synthetto/src/lib.rs:239-269 | No packet is both a descriptor and an event. |
| Synthetto.EventWritersAppendOne | synthetto/src/lib.rs:239-388 | Each event writer appends one well-formed record with the given time and track, and keeps the buffer before it. |
| Synthetto.AllocationOrder | synthetto/src/lib.rs:50-62 | A fresh allocator hands out 1, 2, 3, 4 in order, whatever is asked for. |
| Synthetto.Synthetto.constructor | synthetto/src/lib.rs:50-52 | The counter starts at 1. |
| Synthetto.Synthetto.NextUuid | synthetto/src/lib.rs:54-58 | The current counter is returned and then incremented; 0 is never returned. |
| Synthetto.Synthetto.NewFlow | synthetto/src/lib.rs:60-62 | A flow uses up one identifier and writes nothing. |
| Synthetto.Synthetto.NewProcess | synthetto/src/lib.rs:64-107 | One identifier is allocated and its process descriptor appended. |
| Synthetto.Synthetto.NewThread | synthetto/src/lib.rs:109-149 | One identifier is allocated and its thread descriptor appended. |
| Synthetto.Synthetto.NewTrack | synthetto/src/lib.rs:151-188 | One identifier is allocated and its track descriptor appended. |
| Synthetto.Synthetto.NewCounter | synthetto/src/lib.rs:190-236 | One identifier is allocated and its counter descriptor appended. |
| Cspect.Insert | cspect/src/lib.rs:27 | Inserting into a sorted list keeps it sorted and adds exactly the one element. |
| Cspect.SortFlows | cspect/src/lib.rs:27 | `sort_unstable` gives the ascending permutation of the flow ids. |
| Cspect.SortedHeadIsLeast | cspect/src/lib.rs:27 | The head of a sorted list is its least element. |
| Cspect.SortedUnique | cspect/src/lib.rs:44-46 | Two sorted lists with the same elements are equal. |
| Cspect.NewTrackSlice | cspect/src/lib.rs:26-29 | A new slice keeps its name and holds its flows sorted. |
| Cspect.SliceEqIsMultisetEq | cspect/src/lib.rs:32-48 | Slices are equal exactly when their names are equal and their flows are the same multiset. |
| Cspect.NewTrackSliceIgnoresOrder | cspect/src/lib.rs:26-29 | Reordering the flows does not change the slice built from them. |
| Cspect.CounterValueEqFacts | cspect/src/lib.rs:50-54 | An integer never equals a float, an integer equals itself, and a float equals itself exactly when it is not NaN. |
| Cspect.FloatEqExamples | cspect/src/lib.rs:50-54 | The two zeros are equal, NaN does not equal itself, and neighbouring doubles differ. |
| Cspect.CountsAppend | cspect/src/lib.rs:299-316 | One record more adds one to the begin or end count of its track. |
| Cspect.BeginPushes | cspect/src/lib.rs:311-316 | A begin record together with a push keeps every track balanced. |
| Cspect.EndPops | cspect/src/lib.rs:346-352 | An end record together with a pop keeps the balance; on an empty stack the end is counted as forced. |
| Cspect.OtherKeeps | cspect/src/lib.rs:356-421 | Instant and counter records keep every track balanced. |
| Cspect.IoErrToStr | cspect/src/lib.rs:15-17 | A write error message starts with `Failed to write to file - `. |
| Cspect.EndsNeverExceedBegins | cspect/src/lib.rs:320-354 | Without forced ends, a track never has more ends than begins, and the difference is its number of open slices. |
| Cspect.Context.constructor | cspect/src/lib.rs:90-104 | A new context has no tracks, no counters, no output, and an allocator at 1. |
| Cspect.Context.WriteAll | cspect/src/lib.rs:311-313 | A write either appends every record or none, with a write error. |
| Cspect.Context.GetMutTrack | cspect/src/lib.rs:113-115 | A track seen for the first time gets an empty stack; other tracks are untouched. |
| Cspect.Context.Flush | cspect/src/lib.rs:123-127 | A flush changes no modelled state and may fail with a flush error. |
| Cspect.Context.NewFlow | cspect/src/lib.rs:129-131 | A flow uses up one identifier and writes nothing. |
| Cspect.Context.WriteDescriptor | cspect/src/lib.rs:155-160 | A descriptor is written and its identifier returned, or nothing is written and the error returned. |
| Cspect.Context.NewTrack | cspect/src/lib.rs:133-161 | One identifier is used up even when the write fails; on success its descriptor is the one new record. |
| Cspect.Context.NewProcess | cspect/src/lib.rs:163-195 | One identifier is used up even when the write fails; on success its process descriptor is the one new record. |
| Cspect.Context.NewThread | cspect/src/lib.rs:197-227 | One identifier is used up even when the write fails; on success its thread descriptor is the one new record. |
| Cspect.Context.NewCounter | cspect/src/lib.rs:229-262 | One identifier is used up even when the write fails; on success its counter descriptor is the one new record. |
| Cspect.Context.SliceEndEvt | cspect/src/lib.rs:320-354 | With an empty stack and no force, nothing is written. Otherwise one end record is written and the top slice, if any, popped; a failed write changes nothing. |
| Cspect.Context.PopSlice | cspect/src/lib.rs:337-353 | The end record is written, then the top slice popped; on an empty stack the end is counted as forced. |
| Cspect.Context.PushSlice | cspect/src/lib.rs:299-317 | The begin record is written, then the slice pushed; a failed write pushes nothing. |
| Cspect.Context.SliceBeginEvt | cspect/src/lib.rs:264-318 | With NewSlice or an empty stack, begin and push. With ReplaceIfDifferent and an equal top, nothing happens. Otherwise end the top, then begin and push, keeping the depth. |
| Cspect.Context.BeginReplacing | cspect/src/lib.rs:276-296 | The Replace and ReplaceIfDifferent arms behave as `slice_begin_evt` describes. |
| Cspect.Context.ReplaceTop | cspect/src/lib.rs:286-296 | On a non-empty stack, the top is replaced unless it equals the new slice and only a different one is to be replaced. |
| Cspect.Context.EndThenBegin | cspect/src/lib.rs:277-282 | A forced end without flows, then the begin: the top slice is replaced by the new one. |
| Cspect.Context.InstantEvt | cspect/src/lib.rs:356-382 | Exactly one instant record is written, or nothing with a write error; no stack or counter changes. |
| Cspect.Context.WriteCounter | cspect/src/lib.rs:398-413 | One integer or floating-point counter record is written, as the value is, or nothing with a write error. |
| Cspect.Context.CounterEvt | cspect/src/lib.rs:384-421 | Nothing is written exactly when compression is on and the stored value equals the new one. Otherwise one record is written, and the value is stored exactly when compression is on. |
| Dpi.RecoverOptionalUuid | cspect/src/dpi.rs:646-648 | Zero is no identifier; any other value is that identifier. |
| Dpi.OptionalUuidRoundTrip | cspect/src/dpi.rs:646-648 | Every optional non-zero identifier survives the trip through the interface. |
| Dpi.RecoverRequiredUuid | cspect/src/dpi.rs:639-644 | Zero is an error with `Required UUID is zero`; any other value is accepted as it is. |
| Dpi.RecoverOptionalI32 | cspect/src/dpi.rs:650-652 | Zero is absent; any other value is kept. |
| Dpi.RecoverBool | cspect/src/dpi.rs:635-637 | Any non-zero bit is true. |
| Dpi.ZeroRankIsAbsent | cspect/src/dpi.rs:650-652 | A rank is passed exactly when it is not zero, so a rank of 0 cannot be given. |
| Dpi.RecoverChildOrdering | cspect/src/dpi.rs:654-662 | 0 is none, 1 to 3 select an ordering, and anything else is an error. |
| Dpi.RecoverReplacementBehaviour | cspect/src/dpi.rs:664-673 | 0 to 2 select a behaviour, and anything else is an error. |
| Dpi.ChildOrderingCodeIsProtoValue | cspect/src/dpi.rs:654-662 | The interface's ordering codes are the trace format's own values. |
| Dpi.ChildOrderingRoundTrip | cspect/src/dpi.rs:654-662 | Every ordering, and its absence, can be selected through the interface. |
| Dpi.ReplacementBehaviourCodes | cspect/src/dpi.rs:664-673 | Every replacement behaviour has exactly one code. |
| Dpi.RecoverOptionalCstr | cspect/src/dpi.rs:622-633 | A null pointer and an empty string are both absent; any other string is kept. |
| Dpi.RecoverCstr | cspect/src/dpi.rs:615-620 | Only a null pointer is an error; any string is kept. |
| Dpi.CmdlineOf | cspect/src/dpi.rs:428-430 | The command line is one part when a non-empty string is given, and none otherwise. |
| Dpi.NonZeroFacts | cspect/src/dpi.rs:238-257 | Keeping the non-zero flow ids drops only zeros and never lengthens the list. |
| Dpi.NonZeroShrinks | cspect/src/dpi.rs:238-257 | Filtering never lengthens the list and leaves no zero in it. |
| Dpi.NonZeroCounts | cspect/src/dpi.rs:238-257 | Every non-zero id occurs as often after filtering as before. |
| Dpi.NonZeroKeepsAll | cspect/src/dpi.rs:238-257 | A list without zeros is left as it is. |
| Dpi.NonZeroThree | cspect/src/dpi.rs:238-247 | Three slots are filtered one at a time, in slot order. |
| Dpi.CollectFlows | cspect/src/dpi.rs:238-247 | The flow list holds the non-zero slots in slot order: at most three ids, none of them zero. |
| Dpi.CollectFlowsExample | cspect/src/dpi.rs:238-247 | The slots 0, 7, 0 give the list [7]. |
| Dpi.ErrRetCode | cspect/src/dpi.rs:74-99 | The code is 0 exactly when the handle is not null and the call succeeded, and 1 otherwise. |
| Dpi.UuidRetCodeAsWritten | cspect/src/dpi.rs:104-129 | A null handle gives 1; otherwise the identifier, or 0 on an error. |
| Dpi.NullHandleLooksLikeFirstId | cspect/src/dpi.rs:107-110 | The null-handle code equals the first identifier a fresh context hands out. |
| Dpi.UuidRetCode | cspect/src/dpi.rs:104-129 | A null handle gives 0; otherwise the identifier, or 0 on an error. |
| Dpi.UuidRetCodeSignalsFailure | cspect/src/dpi.rs:104-129 | The corrected code is 0 exactly when the call failed, and otherwise reads back as the identifier. |

## Left out

- Timestamp conversion (`convert_ts`): floating-point scaling is outside the model. A context holds the conversion as a function fixed when it is made.
- Context creation failure: `Context.constructor` models an output file that could be created. The failing `File::create` and the null handle `cspect_new` then returns are not modelled.
- The C interface itself is not modelled: raw pointers, boxing and re-leaking the context, the mutex, UTF-8 decoding of C strings, and `println!`. `Dpi` models the argument conversions and return codes, with a null pointer as `None`.
- Dpi.RecoverCstr: a string that is not valid UTF-8 is not modelled, so its decode error does not occur.
- The encoder's failure cases are I/O failures. Every write or flush may fail, with an unspecified cause. The buffer trimming (`trim_encode_buffer`) and the encode buffer are not modelled: a record goes straight to the writer.
- The protobuf wire encoding of a packet is not modelled. A record holds the packet value. In the annotation pass, the codec is a pair of functions given to the pass.
- Framer.VarintRoundTrip: lengths are unbounded naturals. The 64-bit and `usize` limits of `decode_length_delimiter` appear only as the 10-byte bound.
- A huge length field makes the reader allocate that much before reading. The model reads the payload out of the input instead.
- Opening, creating and renaming files in `annotate` are not modelled: the input is a byte sequence and the output the bytes written. Logging is not modelled either.
- The `open` and `serve` commands and the command-line front end are not part of this model.
- Identifiers are unbounded naturals. Wrap-around of the 64-bit allocator counter after 2^64 allocations is not modelled.
- Dpi.UuidRetCodeAsWritten: a 64-bit identifier becomes a `c_ulonglong` unchanged, so no width conversion is modelled.
- The integer counter value is `val as i64` of an unsigned 64-bit number. The model takes the signed value as given.
- Cspect.FloatEqExamples: doubles are kept as IEEE-754 bit patterns. Only equality is modelled (NaN never equal; the two zeros equal); no arithmetic.
- AnnotateExamples.Upper: the test resolver's `to_uppercase` is modelled for ASCII letters only.
- Addr2Line: the debug-information reader (`find_frames`, `find_symbol`) and `demangle_auto` are foreign libraries, given to the resolver as function-valued fields. A lookup's frame iterator is the finite sequence of answers it gives to `next`, after which it ends; an iterator that never ends is not modelled. `Loader::new` is a loaded value or nothing.
- Addr2Line.Peekable: the `Peekable` adapter comes from the `fallible_iterator` crate, which is not part of this model; its `next` and `peek` are modelled after that crate's definition, in which `peek` keeps only a frame and drops an end or an error.
- Addr2Line.Components: `Path::file_name` is modelled for `/`-separated paths; platform path syntax and lossy UTF-8 conversion are not.
- Disasm: the instruction decoder and its tables are foreign, and are given as functions. The panic when a decoder table cannot be built is not modelled. A placeholder kind other than the two keys cannot reach the resolver, so `Disasm.Annotate` requires one of them, matching the `unreachable!()`.
- Annotate: resolvers are values, not shared mutable objects. Because both resolvers keep no state between calls, this loses nothing.

## Findings

| source | as written | input that shows it | evidently intended | confidence | as-written member | corrected member |
|---|---|---|---|---|---|---|
| cspect/src/dpi.rs:107-110 | The identifier-returning wrapper returns 1 when the context handle is null. | A null handle passed to `cspect_new_flow` returns 1; a fresh context's first `cspect_new_flow` also returns 1. | Return 0, as every other failure of these wrappers does, since 0 is never a valid identifier. | not executed | Dpi.UuidRetCodeAsWritten | Dpi.UuidRetCode |
